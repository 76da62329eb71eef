/**
 The `cshits` table of `dev/01-init.sql` as the list of its rows, and the four statements
 `src/libs/phpcount.rs` runs against it.
*/
module HitTable {

  datatype Row = Row(page: string, unique: bool, count: nat)

  predicate Matches(row: Row, page: string, unique: bool) {
    row.page == page && row.unique == unique
  }

  /** SELECT pageid ... WHERE pageid = ? AND isunique = ? finds a row. */
  predicate Has(hits: seq<Row>, page: string, unique: bool) {
    exists i :: 0 <= i < |hits| && Matches(hits[i], page, unique)
  }

  /** PRIMARY KEY (pageid, isunique). */
  predicate Keyed(hits: seq<Row>) {
    forall i, j :: 0 <= i < j < |hits| ==> !Matches(hits[j], hits[i].page, hits[i].unique)
  }

  /** INSERT INTO cshits VALUES (?, ?, 0). */
  function Insert(hits: seq<Row>, page: string, unique: bool): seq<Row> {
    hits + [Row(page, unique, 0)]
  }

  /** UPDATE cshits SET hitcount = hitcount + 1 WHERE pageid = ? AND isunique = ?. */
  function Bump(hits: seq<Row>, page: string, unique: bool): (r: seq<Row>)
    ensures |r| == |hits|
  {
    if hits == [] then []
    else
      var row := hits[0];
      [if Matches(row, page, unique) then row.(count := row.count + 1) else row] + Bump(hits[1..], page, unique)
  }

  /** SELECT hitcount ... LIMIT 1, or 0 where there is no row. */
  function CountOf(hits: seq<Row>, page: string, unique: bool): nat {
    if hits == [] then 0
    else if Matches(hits[0], page, unique) then hits[0].count
    else CountOf(hits[1..], page, unique)
  }

  /** SELECT SUM(hitcount) ... WHERE isunique = ?. */
  function Total(hits: seq<Row>, unique: bool): nat {
    if hits == [] then 0
    else (if hits[0].unique == unique then hits[0].count else 0) + Total(hits[1..], unique)
  }

  /** How many rows a statement for this page and flag touches. */
  function MatchCount(hits: seq<Row>, page: string, unique: bool): (n: nat)
    ensures n > 0 <==> Has(hits, page, unique)
  {
    if hits == [] then 0
    else
      HasPeels(hits, page, unique);
      (if Matches(hits[0], page, unique) then 1 else 0) + MatchCount(hits[1..], page, unique)
  }

  lemma HasPeels(hits: seq<Row>, page: string, unique: bool)
    requires hits != []
    ensures Has(hits, page, unique) <==> Matches(hits[0], page, unique) || Has(hits[1..], page, unique)
  {
    if Has(hits[1..], page, unique) {
      var i :| 0 <= i < |hits[1..]| && Matches(hits[1..][i], page, unique);
      assert Matches(hits[i + 1], page, unique);
    }
    if Has(hits, page, unique) && !Matches(hits[0], page, unique) {
      var i :| 0 <= i < |hits| && Matches(hits[i], page, unique);
      assert Matches(hits[1..][i - 1], page, unique);
    }
  }

  lemma KeyedPeels(hits: seq<Row>)
    requires hits != [] && Keyed(hits)
    ensures Keyed(hits[1..]) && !Has(hits[1..], hits[0].page, hits[0].unique)
  {
    forall i | 0 <= i < |hits[1..]|
      ensures !Matches(hits[1..][i], hits[0].page, hits[0].unique)
    {
      assert !Matches(hits[i + 1], hits[0].page, hits[0].unique);
    }
    forall i, j | 0 <= i < j < |hits[1..]|
      ensures !Matches(hits[1..][j], hits[1..][i].page, hits[1..][i].unique)
    {
      assert !Matches(hits[j + 1], hits[i + 1].page, hits[i + 1].unique);
    }
  }

  /** Under the primary key a statement touches at most one row. */
  lemma {:induction false} AtMostOneRow(hits: seq<Row>, page: string, unique: bool)
    requires Keyed(hits)
    ensures MatchCount(hits, page, unique) <= 1
  {
    if hits != [] {
      KeyedPeels(hits);
      AtMostOneRow(hits[1..], page, unique);
    }
  }

  lemma BumpAt(hits: seq<Row>, page: string, unique: bool, i: nat)
    requires i < |hits|
    ensures Bump(hits, page, unique)[i] ==
      if Matches(hits[i], page, unique) then hits[i].(count := hits[i].count + 1) else hits[i]
  {
    if i > 0 {
      BumpAt(hits[1..], page, unique, i - 1);
    }
  }

  lemma BumpKeeps(hits: seq<Row>, page: string, unique: bool)
    ensures Keyed(hits) ==> Keyed(Bump(hits, page, unique))
    ensures forall p, u :: Has(Bump(hits, page, unique), p, u) <==> Has(hits, p, u)
  {
    var after := Bump(hits, page, unique);
    forall i: nat | i < |hits|
      ensures after[i].page == hits[i].page && after[i].unique == hits[i].unique
    {
      BumpAt(hits, page, unique, i);
    }
    forall p, u
      ensures Has(after, p, u) <==> Has(hits, p, u)
    {
      if Has(hits, p, u) {
        var i :| 0 <= i < |hits| && Matches(hits[i], p, u);
        assert Matches(after[i], p, u);
      }
      if Has(after, p, u) {
        var i :| 0 <= i < |after| && Matches(after[i], p, u);
        assert Matches(hits[i], p, u);
      }
    }
  }

  lemma InsertKeeps(hits: seq<Row>, page: string, unique: bool)
    ensures Keyed(hits) && !Has(hits, page, unique) ==> Keyed(Insert(hits, page, unique))
    ensures forall p, u :: Has(Insert(hits, page, unique), p, u) <==> Has(hits, p, u) || (p == page && u == unique)
  {
    var after := Insert(hits, page, unique);
    forall p, u
      ensures Has(after, p, u) <==> Has(hits, p, u) || (p == page && u == unique)
    {
      if Has(hits, p, u) {
        var i :| 0 <= i < |hits| && Matches(hits[i], p, u);
        assert Matches(after[i], p, u);
      }
      assert Matches(after[|hits|], page, unique);
    }
  }

  /** A new row counts nothing yet. */
  lemma {:induction false} InsertCounts(hits: seq<Row>, page: string, unique: bool, p: string, u: bool)
    ensures CountOf(Insert(hits, page, unique), p, u) == CountOf(hits, p, u)
  {
    if hits != [] {
      InsertCounts(hits[1..], page, unique, p, u);
      assert Insert(hits, page, unique)[1..] == Insert(hits[1..], page, unique);
    }
  }

  lemma {:induction false} InsertTotals(hits: seq<Row>, page: string, unique: bool, u: bool)
    ensures Total(Insert(hits, page, unique), u) == Total(hits, u)
  {
    if hits != [] {
      InsertTotals(hits[1..], page, unique, u);
      assert Insert(hits, page, unique)[1..] == Insert(hits[1..], page, unique);
    }
  }

  /** An increment adds one to the count it names, if there is one, and to no other. */
  lemma {:induction false} BumpCounts(hits: seq<Row>, page: string, unique: bool, p: string, u: bool)
    ensures CountOf(Bump(hits, page, unique), p, u)
         == CountOf(hits, p, u) + if p == page && u == unique && Has(hits, page, unique) then 1 else 0
  {
    if hits != [] {
      BumpCounts(hits[1..], page, unique, p, u);
      HasPeels(hits, page, unique);
    }
  }

  /** The site total grows by the number of rows the increment touched. */
  lemma {:induction false} BumpTotals(hits: seq<Row>, page: string, unique: bool, u: bool)
    ensures Total(Bump(hits, page, unique), u)
         == Total(hits, u) + if u == unique then MatchCount(hits, page, unique) else 0
  {
    if hits != [] {
      BumpTotals(hits[1..], page, unique, u);
    }
  }
}
