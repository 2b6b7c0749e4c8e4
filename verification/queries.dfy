/**
 * The read queries of `DatabaseManager` (database/db_manager.py):
 * `get_all_cards`, `get_cards_by_color`, `get_cards_by_type` and
 * `get_cards_by_set`. Each selects the card rows that satisfy its filter
 * and returns them ordered by `card_id`.
 *
 * Text is ordered as SQLite's default BINARY collation orders it: character
 * by character on code points (the order of the UTF-8 bytes), a proper
 * prefix first. Identifiers are unique, so the order is strict and, with
 * the filter, fixes the result completely (`AscendingUnique`).
 */
module Queries {

  import opened Wrappers
  import opened Models
  import opened Database

  // ---------------------------------------------------------------------------
  // The order of identifiers
  // ---------------------------------------------------------------------------

  /** `a` sorts strictly before `b`. */
  predicate Below(a: string, b: string)
    decreases |a|
  {
    if a == [] then b != []
    else b != [] && (a[0] < b[0] || (a[0] == b[0] && Below(a[1..], b[1..])))
  }

  lemma {:induction false} BelowIrreflexive(a: string)
    ensures !Below(a, a)
    decreases |a|
  {
    if a != [] {
      BelowIrreflexive(a[1..]);
    }
  }

  lemma {:induction false} BelowTransitive(a: string, b: string, c: string)
    requires Below(a, b) && Below(b, c)
    ensures Below(a, c)
    decreases |a|
  {
    if a != [] && a[0] == b[0] && b[0] == c[0] {
      BelowTransitive(a[1..], b[1..], c[1..]);
    }
  }

  /** Two different texts are ordered one way or the other, and never both. */
  lemma {:induction false} BelowTotal(a: string, b: string)
    ensures a != b <==> Below(a, b) || Below(b, a)
    ensures !(Below(a, b) && Below(b, a))
    decreases |a|
  {
    if a == b {
      BelowIrreflexive(a);
    } else if a != [] && b != [] {
      BelowTotal(a[1..], b[1..]);
      if a[0] == b[0] {
        assert a == [a[0]] + a[1..] && b == [b[0]] + b[1..];
      }
    }
  }

  /** Rows in strictly increasing order of identifier. */
  predicate Ascending(rows: seq<Card>) {
    forall i, j :: 0 <= i < j < |rows| ==> Below(rows[i].cardId, rows[j].cardId)
  }

  /** A row of the `cards` table: stored under its own identifier. */
  predicate Stored(t: Tables, c: Card) {
    c.cardId in t.cards && t.cards[c.cardId] == c
  }

  // ---------------------------------------------------------------------------
  // Ordered insertion
  // ---------------------------------------------------------------------------

  /** `c` placed among ascending rows just before the first row it sorts below. */
  function InsertById(rows: seq<Card>, c: Card): (r: seq<Card>)
    ensures |r| == |rows| + 1
    decreases |rows|
  {
    if rows == [] then [c]
    else if Below(c.cardId, rows[0].cardId) then [c] + rows
    else [rows[0]] + InsertById(rows[1..], c)
  }

  /** A row that sorts below the first of ascending rows can go in front of them. */
  lemma AscendingFront(c: Card, rows: seq<Card>)
    requires Ascending(rows) && rows != [] && Below(c.cardId, rows[0].cardId)
    ensures Ascending([c] + rows)
  {
    var r := [c] + rows;
    forall i, j | 0 <= i < j < |r|
      ensures Below(r[i].cardId, r[j].cardId)
    {
      if i == 0 && j > 1 {
        BelowTransitive(c.cardId, rows[0].cardId, rows[j - 1].cardId);
      }
    }
  }

  /** A row that sorts below every one of ascending rows can go in front of them. */
  lemma AscendingCons(head: Card, rows: seq<Card>)
    requires Ascending(rows)
    requires forall d :: d in rows ==> Below(head.cardId, d.cardId)
    ensures Ascending([head] + rows)
  {
    var r := [head] + rows;
    forall i, j | 0 <= i < j < |r|
      ensures Below(r[i].cardId, r[j].cardId)
    {
      assert r[j] == rows[j - 1];
      if i > 0 {
        assert r[i] == rows[i - 1];
      }
    }
  }

  /** Inserting a row with a new identifier keeps the rows ascending and adds exactly that row. */
  lemma {:induction false} InsertByIdSound(rows: seq<Card>, c: Card)
    requires Ascending(rows)
    requires forall i :: 0 <= i < |rows| ==> rows[i].cardId != c.cardId
    ensures forall d :: d in InsertById(rows, c) <==> d in rows || d == c
    ensures Ascending(InsertById(rows, c))
    decreases |rows|
  {
    if rows == [] {
    } else if Below(c.cardId, rows[0].cardId) {
      AscendingFront(c, rows);
    } else {
      var head := rows[0];
      var tail := rows[1..];
      BelowTotal(c.cardId, head.cardId);
      InsertByIdSound(tail, c);
      var r' := InsertById(tail, c);
      forall d | d in r'
        ensures Below(head.cardId, d.cardId)
      {
        if d != c {
          var k :| 0 <= k < |tail| && tail[k] == d;
          assert rows[k + 1] == d;
        }
      }
      AscendingCons(head, r');
      assert rows == [head] + tail;
    }
  }

  /** The first of ascending rows sorts below every other one. */
  lemma AscendingTail(xs: seq<Card>, c: Card)
    requires Ascending(xs) && xs != []
    ensures c in xs[1..] <==> c in xs && c != xs[0]
  {
    assert xs == [xs[0]] + xs[1..];
    if c in xs[1..] {
      var i :| 0 <= i < |xs[1..]| && xs[1..][i] == c;
      assert Below(xs[0].cardId, c.cardId);
      BelowIrreflexive(c.cardId);
    }
  }

  /** Ascending rows with the same members start with the same row. */
  lemma AscendingHeads(xs: seq<Card>, ys: seq<Card>)
    requires Ascending(xs) && Ascending(ys) && xs != []
    requires forall c :: c in xs <==> c in ys
    ensures ys != [] && ys[0] == xs[0]
  {
    assert xs[0] in ys;
    var k :| 0 <= k < |ys| && ys[k] == xs[0];
    assert ys[0] in xs;
    var m :| 0 <= m < |xs| && xs[m] == ys[0];
    if k > 0 {
      if m > 0 {
        BelowTotal(xs[0].cardId, xs[m].cardId);
      } else {
        BelowIrreflexive(xs[0].cardId);
      }
      assert false;
    }
  }

  /** Lists with the same members are empty together. */
  lemma SameMembersEmpty(xs: seq<Card>, ys: seq<Card>)
    requires forall c :: c in xs <==> c in ys
    ensures xs == [] <==> ys == []
  {
    if xs != [] {
      assert xs[0] in ys;
    }
    if ys != [] {
      assert ys[0] in xs;
    }
  }

  /** Ascending rows with the same members are the same list. */
  lemma {:induction false} AscendingUnique(xs: seq<Card>, ys: seq<Card>)
    requires Ascending(xs) && Ascending(ys)
    requires forall c :: c in xs <==> c in ys
    ensures xs == ys
    decreases |xs|
  {
    if xs == [] {
      SameMembersEmpty(xs, ys);
    } else {
      AscendingHeads(xs, ys);
      forall c: Card
        ensures c in xs[1..] <==> c in ys[1..]
      {
        AscendingTail(xs, c);
        AscendingTail(ys, c);
      }
      AscendingUnique(xs[1..], ys[1..]);
      assert xs == [xs[0]] + xs[1..] && ys == [ys[0]] + ys[1..];
    }
  }

  // ---------------------------------------------------------------------------
  // Queries
  // ---------------------------------------------------------------------------

  /** `SELECT * FROM cards WHERE <keep> ORDER BY card_id`. */
  method Select(t: Tables, keep: Card -> bool) returns (rows: seq<Card>)
    requires Keyed(t)
    ensures Ascending(rows)
    ensures forall c :: c in rows <==> Stored(t, c) && keep(c)
  {
    rows := [];
    var left := t.cards.Keys;
    while left != {}
      invariant left <= t.cards.Keys
      invariant Ascending(rows)
      invariant forall c :: c in rows <==> Stored(t, c) && c.cardId !in left && keep(c)
      decreases |left|
    {
      var id :| id in left;
      var c := t.cards[id];
      if keep(c) {
        InsertByIdSound(rows, c);
        rows := InsertById(rows, c);
      }
      left := left - {id};
    }
  }

  /** `get_all_cards`: every row, by identifier. */
  method GetAllCards(t: Tables) returns (rows: seq<Card>)
    requires Keyed(t)
    ensures Ascending(rows)
    ensures forall c :: c in rows <==> Stored(t, c)
  {
    rows := Select(t, (c: Card) => true);
  }

  /** `get_cards_by_color`: the rows whose color is `color`; a row without a color never matches. */
  method GetCardsByColor(t: Tables, color: string) returns (rows: seq<Card>)
    requires Keyed(t)
    ensures Ascending(rows)
    ensures forall c :: c in rows <==> Stored(t, c) && c.color == Some(color)
  {
    rows := Select(t, (c: Card) => c.color == Some(color));
  }

  /** `get_cards_by_type`: the rows whose card type is `cardType`. */
  method GetCardsByType(t: Tables, cardType: string) returns (rows: seq<Card>)
    requires Keyed(t)
    ensures Ascending(rows)
    ensures forall c :: c in rows <==> Stored(t, c) && c.cardType == cardType
  {
    rows := Select(t, (c: Card) => c.cardType == cardType);
  }

  /** `p` begins `s`. */
  predicate IsPrefix(p: string, s: string) {
    |p| <= |s| && s[..|p|] == p
  }

  /**
   * For a dash-free set code, an identifier begins with the code and a dash
   * exactly when it has a dash and `insert_cards` derives that code from it.
   */
  lemma SetPrefixIff(code: string, id: string)
    requires '-' !in code
    ensures IsPrefix(code + "-", id) <==> '-' in id && DerivedSetCode(id) == code
  {
    if IsPrefix(code + "-", id) {
      var rest := id[|code| + 1..];
      assert id == code + "-" + rest;
      assert id[|code|] == '-';
      DerivedSetCodeOf(code, rest);
    }
  }

  /**
   * `get_cards_by_set`: the rows whose identifier begins with the set code
   * and a dash. For a dash-free code these are exactly the rows whose
   * derived set code is that code.
   */
  method GetCardsBySet(t: Tables, setCode: string) returns (rows: seq<Card>)
    requires Keyed(t)
    ensures Ascending(rows)
    ensures forall c :: c in rows <==> Stored(t, c) && IsPrefix(setCode + "-", c.cardId)
    ensures '-' !in setCode ==>
      forall c :: c in rows <==> Stored(t, c) && '-' in c.cardId && DerivedSetCode(c.cardId) == setCode
  {
    rows := Select(t, (c: Card) => IsPrefix(setCode + "-", c.cardId));
    if '-' !in setCode {
      forall c: Card
        ensures IsPrefix(setCode + "-", c.cardId) <==> '-' in c.cardId && DerivedSetCode(c.cardId) == setCode
      {
        SetPrefixIff(setCode, c.cardId);
      }
    }
  }
}
