/**
 * Card identifiers such as `OP01-001 SR` (`extract_card_id_parts` in
 * scraper/utils.py).
 *
 * The source matches `([A-Z0-9]+)-(\d+)\s*([A-Z]+)?` at the start of the
 * identifier. Every part of that pattern is greedy and nothing after a part
 * can fail once the digits are matched, so the match takes the longest run
 * of each class in turn. `ExtractCardIdParts` computes it with `Span`;
 * `Matches` is the declarative reading of the pattern, and the two are
 * proved to agree in both directions.
 */
module CardIds {

  import opened Wrappers
  import opened Text

  /** A character of the set-code class `[A-Z0-9]`. */
  predicate IsSetChar(c: char) {
    IsUpper(c) || IsDigit(c)
  }

  /** `s` does not start with a character of the class `p`. */
  predicate FirstNot(s: string, p: char -> bool) {
    s == [] || !p(s[0])
  }

  /** Length of the longest prefix of `s` drawn from the class `p`. */
  function Span(s: string, p: char -> bool): (n: nat)
    ensures n <= |s|
    ensures FirstNot(s[n..], p)
    decreases |s|
  {
    if s != [] && p(s[0]) then 1 + Span(s[1..], p) else 0
  }

  /** The three groups of the match; all three empty when nothing matches. */
  datatype IdParts = IdParts(setCode: string, cardNumber: string, rarity: string)

  /** The result `("", "", "")` of an identifier the pattern does not match. */
  const Unparsed := IdParts("", "", "")

  /** A match split into its pieces: the three groups, the blanks `\s*` and the unmatched rest. */
  datatype Scan = Scan(setCode: string, cardNumber: string, blanks: string, rarity: string, rest: string)

  /** After the digits: the blanks, then the rarity letters, then whatever is left. */
  function ScanTail(code: string, num: string, after: string): (sc: Scan)
    ensures sc.setCode == code && sc.cardNumber == num
    ensures |sc.blanks| + |sc.rarity| + |sc.rest| == |after|
  {
    var w := Span(after, IsSpace);
    var tail := after[w..];
    var u := Span(tail, IsUpper);
    Scan(code, num, after[..w], tail[..u], tail[u..])
  }

  /** After the dash: at least one digit, then the tail. */
  function ScanNumber(code: string, s: string): (r: Option<Scan>)
    ensures r.Some? <==> s != [] && IsDigit(s[0])
    ensures r.Some? ==> r.value.setCode == code && r.value.cardNumber != []
  {
    var b := Span(s, IsDigit);
    if b == 0 then None else Some(ScanTail(code, s[..b], s[b..]))
  }

  /** The whole match: at least one `[A-Z0-9]`, a dash, then the number and the tail. */
  function ScanId(id: string): (r: Option<Scan>)
    ensures r.Some? ==> r.value.setCode != [] && r.value.cardNumber != []
  {
    var a := Span(id, IsSetChar);
    if a == 0 || a == |id| || id[a] != '-' then None else ScanNumber(id[..a], id[a + 1..])
  }

  function Parts(sc: Scan): IdParts {
    IdParts(sc.setCode, sc.cardNumber, sc.rarity)
  }

  /**
   * `extract_card_id_parts`: the set code, the card number and the rarity
   * (empty when the identifier has none) of `id`, or three empty texts.
   */
  function ExtractCardIdParts(id: string): (r: IdParts)
    ensures r.setCode == [] <==> r.cardNumber == []
    ensures r.setCode == [] ==> r == Unparsed
  {
    match ScanId(id)
    case None => Unparsed
    case Some(sc) => Parts(sc)
  }

  /** What follows the number of a match: the blanks, the rarity and the rest, in order. */
  function After(sc: Scan): string {
    sc.blanks + sc.rarity + sc.rest
  }

  /** The blanks and the rarity letters are each as long as they can be. */
  predicate TailShape(sc: Scan) {
    && All(sc.blanks, IsSpace) && All(sc.rarity, IsUpper)
    && FirstNot(sc.rarity + sc.rest, IsSpace)
    && FirstNot(sc.rest, IsUpper)
  }

  /**
   * The pattern matches the start of `id` with pieces `sc`: `id` is the set
   * code, a dash, the number, the blanks, the rarity and the rest, each part
   * drawn from its class and as long as it can be (the character after it
   * is not in its class).
   */
  predicate Matches(id: string, sc: Scan) {
    && id == sc.setCode + "-" + sc.cardNumber + After(sc)
    && sc.setCode != [] && All(sc.setCode, IsSetChar)
    && sc.cardNumber != [] && All(sc.cardNumber, IsDigit)
    && FirstNot(After(sc), IsDigit)
    && TailShape(sc)
  }

  /** The pattern matches at the start of `id`. */
  ghost predicate PatternMatches(id: string) {
    exists sc :: Matches(id, sc)
  }

  // ---------------------------------------------------------------------------
  // Spans
  // ---------------------------------------------------------------------------

  lemma {:induction false} SpanAll(s: string, p: char -> bool)
    ensures All(s[..Span(s, p)], p)
    decreases |s|
  {
    if s != [] && p(s[0]) {
      SpanAll(s[1..], p);
      var n := Span(s, p);
      assert forall i :: 1 <= i < n ==> s[..n][i] == s[1..][..n - 1][i - 1];
    }
  }

  /** A run of the class followed by something outside it spans exactly the run. */
  lemma {:induction false} SpanPrefix(x: string, y: string, p: char -> bool)
    requires All(x, p) && FirstNot(y, p)
    ensures Span(x + y, p) == |x|
    decreases |x|
  {
    if x == [] {
      assert x + y == y;
    } else {
      assert (x + y)[1..] == x[1..] + y;
      assert (x + y)[0] == x[0];
      SpanPrefix(x[1..], y, p);
    }
  }

  lemma SplitAt(s: string, n: nat)
    requires n <= |s|
    ensures s == s[..n] + s[n..]
  {
  }

  // ---------------------------------------------------------------------------
  // The computed pieces are a match of the pattern
  // ---------------------------------------------------------------------------

  lemma ScanTailSplits(code: string, num: string, after: string)
    ensures After(ScanTail(code, num, after)) == after
  {
    var w := Span(after, IsSpace);
    var tail := after[w..];
    var u := Span(tail, IsUpper);
    SplitAt(after, w);
    SplitAt(tail, u);
    ConcatAssoc(after[..w], tail[..u], tail[u..]);
  }

  lemma ScanTailClasses(code: string, num: string, after: string)
    ensures var sc := ScanTail(code, num, after);
      All(sc.blanks, IsSpace) && All(sc.rarity, IsUpper)
  {
    SpanAll(after, IsSpace);
    SpanAll(after[Span(after, IsSpace)..], IsUpper);
  }

  lemma ScanTailMaximal(code: string, num: string, after: string)
    ensures var sc := ScanTail(code, num, after);
      FirstNot(sc.rarity + sc.rest, IsSpace) && FirstNot(sc.rest, IsUpper)
  {
    var tail := after[Span(after, IsSpace)..];
    SplitAt(tail, Span(tail, IsUpper));
  }

  lemma ScanTailSound(code: string, num: string, after: string)
    ensures After(ScanTail(code, num, after)) == after && TailShape(ScanTail(code, num, after))
  {
    ScanTailSplits(code, num, after);
    ScanTailClasses(code, num, after);
    ScanTailMaximal(code, num, after);
  }

  lemma ScanNumberSplits(code: string, s: string)
    requires ScanNumber(code, s).Some?
    ensures s == ScanNumber(code, s).value.cardNumber + After(ScanNumber(code, s).value)
  {
    var b := Span(s, IsDigit);
    ScanTailSplits(code, s[..b], s[b..]);
    SplitAt(s, b);
  }

  lemma ScanNumberSound(code: string, s: string)
    requires ScanNumber(code, s).Some?
    ensures var sc := ScanNumber(code, s).value;
      All(sc.cardNumber, IsDigit) && FirstNot(After(sc), IsDigit) && TailShape(sc)
  {
    var b := Span(s, IsDigit);
    ScanTailSound(code, s[..b], s[b..]);
    SpanAll(s, IsDigit);
  }

  lemma ScanIdSplits(id: string)
    requires ScanId(id).Some?
    ensures id == ScanId(id).value.setCode + "-" + ScanId(id).value.cardNumber + After(ScanId(id).value)
  {
    var a := Span(id, IsSetChar);
    var sc := ScanId(id).value;
    var code, more := id[..a], sc.cardNumber + After(sc);
    ScanNumberSplits(code, id[a + 1..]);
    SplitAt(id, a);
    DropOne(id, a);
    assert [id[a]] == "-";
    ConcatAssoc(code, "-", more);
    ConcatAssoc(code + "-", sc.cardNumber, After(sc));
  }

  lemma ScanIdSound(id: string)
    requires ScanId(id).Some?
    ensures Matches(id, ScanId(id).value)
  {
    var a := Span(id, IsSetChar);
    SpanAll(id, IsSetChar);
    ScanNumberSound(id[..a], id[a + 1..]);
    ScanIdSplits(id);
  }

  // ---------------------------------------------------------------------------
  // A match of the pattern is what the computation finds
  // ---------------------------------------------------------------------------

  lemma ScanTailOf(sc: Scan)
    requires TailShape(sc)
    ensures ScanTail(sc.setCode, sc.cardNumber, After(sc)) == sc
  {
    var tail := sc.rarity + sc.rest;
    var after := sc.blanks + tail;
    ConcatAssoc(sc.blanks, sc.rarity, sc.rest);
    SpanPrefix(sc.blanks, tail, IsSpace);
    assert after[..|sc.blanks|] == sc.blanks && after[|sc.blanks|..] == tail;
    SpanPrefix(sc.rarity, sc.rest, IsUpper);
    assert tail[..|sc.rarity|] == sc.rarity && tail[|sc.rarity|..] == sc.rest;
  }

  lemma ScanNumberOf(sc: Scan)
    requires sc.cardNumber != [] && All(sc.cardNumber, IsDigit)
    requires FirstNot(After(sc), IsDigit) && TailShape(sc)
    ensures ScanNumber(sc.setCode, sc.cardNumber + After(sc)) == Some(sc)
  {
    var after := After(sc);
    var s := sc.cardNumber + after;
    SpanPrefix(sc.cardNumber, after, IsDigit);
    assert s[..|sc.cardNumber|] == sc.cardNumber && s[|sc.cardNumber|..] == after;
    ScanTailOf(sc);
  }

  lemma ScanIdOf(id: string, sc: Scan)
    requires Matches(id, sc)
    ensures ScanId(id) == Some(sc)
  {
    var s := sc.cardNumber + After(sc);
    var ds := "-" + s;
    assert id == sc.setCode + ds by {
      ConcatAssoc(sc.setCode + "-", sc.cardNumber, After(sc));
      ConcatAssoc(sc.setCode, "-", s);
    }
    SpanPrefix(sc.setCode, ds, IsSetChar);
    var a := |sc.setCode|;
    assert id[a] == '-';
    assert id[..a] == sc.setCode && id[a + 1..] == s;
    ScanNumberOf(sc);
  }

  /** The computation finds a match exactly when `sc` is a match of the pattern: the match is unique. */
  lemma ScanIdIff(id: string, sc: Scan)
    ensures ScanId(id) == Some(sc) <==> Matches(id, sc)
  {
    if ScanId(id) == Some(sc) {
      ScanIdSound(id);
    }
    if Matches(id, sc) {
      ScanIdOf(id, sc);
    }
  }

  /** Any match of the pattern has exactly the groups `extract_card_id_parts` returns. */
  lemma ExtractMatches(id: string, sc: Scan)
    requires Matches(id, sc)
    ensures ExtractCardIdParts(id) == Parts(sc)
  {
    ScanIdOf(id, sc);
  }

  /** The identifier is parsed exactly when the pattern matches its start. */
  lemma ExtractParsedIff(id: string)
    ensures ExtractCardIdParts(id) != Unparsed <==> PatternMatches(id)
  {
    if ExtractCardIdParts(id) != Unparsed {
      ScanIdSound(id);
    }
    if PatternMatches(id) {
      var sc :| Matches(id, sc);
      ScanIdOf(id, sc);
    }
  }

  /** `id` starts with a non-empty run of `[A-Z0-9]` of length `k`, then a dash, then a digit. */
  predicate DashAt(id: string, k: nat) {
    0 < k && k + 1 < |id| && id[k] == '-' && IsDigit(id[k + 1]) && All(id[..k], IsSetChar)
  }

  lemma ParsedHasDash(id: string)
    requires ExtractCardIdParts(id) != Unparsed
    ensures DashAt(id, |ExtractCardIdParts(id).setCode|)
    ensures id[..|ExtractCardIdParts(id).setCode|] == ExtractCardIdParts(id).setCode
  {
    var sc := ScanId(id).value;
    ScanIdSound(id);
    var k := |sc.setCode|;
    var more := sc.cardNumber + After(sc);
    assert id == sc.setCode + ("-" + more) by {
      ConcatAssoc(sc.setCode + "-", sc.cardNumber, After(sc));
      ConcatAssoc(sc.setCode, "-", more);
    }
    assert id[..k] == sc.setCode && id[k] == '-' && id[k + 1] == more[0];
  }

  lemma DashParses(id: string, k: nat)
    requires DashAt(id, k)
    ensures ExtractCardIdParts(id) != Unparsed
  {
    SplitAt(id, k);
    SpanPrefix(id[..k], id[k..], IsSetChar);
    assert id[k + 1..][0] == id[k + 1];
  }

  /**
   * The identifier is parsed exactly when it starts with a non-empty run of
   * `[A-Z0-9]`, then a dash, then a digit.
   */
  lemma ExtractParsedShape(id: string)
    ensures ExtractCardIdParts(id) != Unparsed <==> exists k: nat :: DashAt(id, k)
  {
    if ExtractCardIdParts(id) != Unparsed {
      ParsedHasDash(id);
    }
    if exists k: nat :: DashAt(id, k) {
      var k: nat :| DashAt(id, k);
      DashParses(id, k);
    }
  }

  // ---------------------------------------------------------------------------
  // Formatting an identifier
  // ---------------------------------------------------------------------------

  /** The groups are what a successful match can produce. */
  predicate WellFormed(p: IdParts) {
    && p.setCode != [] && All(p.setCode, IsSetChar)
    && p.cardNumber != [] && All(p.cardNumber, IsDigit)
    && All(p.rarity, IsUpper)
  }

  /** Writes the identifier back as `SET-NUMBER RARITY`, or `SET-NUMBER` without a rarity. */
  function Format(p: IdParts): (id: string)
    ensures p.setCode != [] ==> |id| > |p.setCode| && id[|p.setCode|] == '-'
  {
    p.setCode + "-" + p.cardNumber + (if p.rarity == "" then "" else " " + p.rarity)
  }

  /** Parsing a formatted identifier gives its parts back. */
  lemma ExtractFormat(p: IdParts)
    requires WellFormed(p)
    ensures ExtractCardIdParts(Format(p)) == p
  {
    var ws := if p.rarity == "" then "" else " ";
    var sc := Scan(p.setCode, p.cardNumber, ws, p.rarity, "");
    var id := Format(p);
    assert id == p.setCode + "-" + p.cardNumber + ws + p.rarity + "";
    if p.rarity != "" {
      assert (ws + p.rarity + "")[0] == ' ';
      assert (p.rarity + "")[0] == p.rarity[0];
    }
    assert Matches(id, sc);
    ExtractMatches(id, sc);
  }

  /** Every parsed identifier has well-formed parts. */
  lemma ExtractWellFormed(id: string)
    requires ExtractCardIdParts(id) != Unparsed
    ensures WellFormed(ExtractCardIdParts(id))
  {
    ScanIdSound(id);
  }

  // ---------------------------------------------------------------------------
  // The set code
  // ---------------------------------------------------------------------------

  /** The text before the first dash of `id` (all of `id` when it has no dash). */
  function SetCodeOf(id: string): (code: string)
    ensures |code| <= |id| && id[..|code|] == code
    ensures |code| < |id| ==> id[|code|] == '-'
  {
    id[..Span(id, NotDash)]
  }

  predicate NotDash(c: char) {
    c != '-'
  }

  /** The set code of a parsed identifier is its text before the first dash. */
  lemma ExtractSetCode(id: string)
    requires ExtractCardIdParts(id) != Unparsed
    ensures ExtractCardIdParts(id).setCode == SetCodeOf(id)
    ensures |SetCodeOf(id)| < |id|
  {
    var code := ExtractCardIdParts(id).setCode;
    var k := |code|;
    ParsedHasDash(id);
    assert All(code, NotDash) by {
      forall i | 0 <= i < k
        ensures NotDash(code[i])
      {
        assert IsSetChar(id[..k][i]);
      }
    }
    SplitAt(id, k);
    SpanPrefix(code, id[k..], NotDash);
  }

  // ---------------------------------------------------------------------------
  // The examples of tests/test_utils.py
  // ---------------------------------------------------------------------------

  lemma ExampleWithRarity(code: string, num: string, rar: string, id: string)
    requires code == "OP01" && num == "001" && rar == "SR" && id == code + "-" + num + " " + rar
    ensures ExtractCardIdParts(id) == IdParts(code, num, rar)
  {
    assert WellFormed(IdParts(code, num, rar));
    ConcatAssoc(code + "-" + num, " ", rar);
    ExtractFormat(IdParts(code, num, rar));
  }

  lemma ExampleWithoutRarity(code: string, num: string, id: string)
    requires code == "OP01" && num == "001" && id == code + "-" + num
    ensures ExtractCardIdParts(id) == IdParts(code, num, "")
  {
    assert WellFormed(IdParts(code, num, ""));
    assert id == Format(IdParts(code, num, ""));
    ExtractFormat(IdParts(code, num, ""));
  }

  lemma ExampleStarterDeck(code: string, num: string, rar: string, id: string)
    requires code == "ST01" && num == "001" && rar == "C" && id == code + "-" + num + " " + rar
    ensures ExtractCardIdParts(id) == IdParts(code, num, rar)
  {
    assert WellFormed(IdParts(code, num, rar));
    ConcatAssoc(code + "-" + num, " ", rar);
    ExtractFormat(IdParts(code, num, rar));
  }

  /** `Invalid` has no dash after its leading capital, so nothing is extracted. */
  lemma ExampleInvalid(id: string)
    requires id == "Invalid"
    ensures ExtractCardIdParts(id) == Unparsed
  {
    assert Span(id, IsSetChar) == 1 by {
      assert id == "I" + "nvalid";
      SpanPrefix("I", "nvalid", IsSetChar);
    }
  }
}
