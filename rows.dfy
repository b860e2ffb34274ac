/**
 * The rows of the item extraction: the parse results of the lines, the rows
 * they carry, the row cap, and what the loop keeps and leaves behind.
 */
module ItemRows {
  import opened Seqs

  /** A parse result: a row, or a skipped line. */
  datatype Option<T> = None | Some(value: T)

  /** One output row. */
  datatype Item = Item(itemId: string, title: string)

  /** The rows in `ps`, in order, duplicates included. */
  function Rows(ps: seq<Option<Item>>): seq<Item> {
    if ps == [] then []
    else
      var p := Rows(ps[..|ps| - 1]);
      match ps[|ps| - 1]
      case None => p
      case Some(it) => p + [it]
  }

  /** One more parse result extends the rows at the end, or not at all. */
  lemma RowsStep(ps: seq<Option<Item>>, i: nat)
    requires i < |ps|
    ensures ps[i].None? ==> Rows(ps[..i + 1]) == Rows(ps[..i])
    ensures ps[i].Some? ==> Rows(ps[..i + 1]) == Rows(ps[..i]) + [ps[i].value]
  {
    assert ps[..i + 1][..i] == ps[..i];
  }

  /** The rows of a prefix are a prefix of the rows. */
  lemma {:induction false} RowsPrefix(ps: seq<Option<Item>>, n: nat)
    requires n <= |ps|
    ensures |Rows(ps[..n])| <= |Rows(ps)|
    ensures Rows(ps[..n]) == Rows(ps)[..|Rows(ps[..n])|]
  {
    if n < |ps| {
      var init := ps[..|ps| - 1];
      assert ps[..n] == init[..n];
      RowsPrefix(init, n);
    } else {
      assert ps[..n] == ps;
    }
  }

  /** Each row is the result of some position. */
  lemma {:induction false} RowsFrom(ps: seq<Option<Item>>, j: nat)
    requires j < |Rows(ps)|
    ensures exists i :: 0 <= i < |ps| && ps[i] == Some(Rows(ps)[j])
  {
    var init := ps[..|ps| - 1];
    var p := Rows(init);
    if j < |p| {
      RowsFrom(init, j);
      var i :| 0 <= i < |init| && init[i] == Some(p[j]);
      assert ps[i] == init[i];
    } else {
      assert ps[|ps| - 1] == Some(Rows(ps)[j]);
    }
  }

  /** Each result with a row contributes it. */
  lemma {:induction false} InRows(ps: seq<Option<Item>>, i: nat)
    requires i < |ps| && ps[i].Some?
    ensures ps[i].value in Rows(ps)
  {
    var init := ps[..|ps| - 1];
    if i < |init| {
      assert ps[i] == init[i];
      InRows(init, i);
    }
  }

  /** The row cap in force: `max_rows` is checked only after a write, so any cap below 1 acts as 1. */
  function Cap(m: int): (c: nat)
    ensures c >= 1 && c >= m
    ensures m >= 1 ==> c == m
  {
    if m < 1 then 1 else m
  }

  /** `rows` cut off at the cap, if there is one. */
  function Capped(rows: seq<Item>, maxRows: Option<int>): seq<Item> {
    match maxRows
    case None => rows
    case Some(m) => if |rows| <= Cap(m) then rows else rows[..Cap(m)]
  }

  /**
   * What the loop leaves behind is the capped list of distinct rows: it read
   * every result, with the cap never reached or reached on the last one, or
   * it stopped on the result whose row reached the cap.
   */
  lemma Finish(ps: seq<Option<Item>>, maxRows: Option<int>, consumed: nat, written: seq<Item>)
    requires consumed <= |ps| && written == Kept(ps, consumed)
    requires consumed < |ps| ==> maxRows.Some? && |written| == Cap(maxRows.value)
    requires consumed == |ps| && maxRows.Some? ==> |written| <= Cap(maxRows.value)
    ensures written == Capped(Dedup(Rows(ps)), maxRows)
  {
    KeptDedup(ps, consumed);
    if consumed == |ps| {
      assert ps[..consumed] == ps;
    } else {
      RowsPrefix(ps, consumed);
      var all := Rows(ps);
      DedupPrefix(all, |Rows(ps[..consumed])|);
      PrefixCapped(Dedup(all), written, maxRows.value);
    }
  }

  /** A prefix of the cap's length is what Capped keeps. */
  lemma PrefixCapped(all: seq<Item>, written: seq<Item>, m: int)
    requires |written| <= |all| && written == all[..|written|]
    requires |written| == Cap(m)
    ensures written == Capped(all, Some(m))
  {
  }

  /**
   * The rows an uncapped pass writes after the first `i` results: each row
   * the first time it turns up.
   */
  function Kept(ps: seq<Option<Item>>, i: nat): seq<Item>
    requires i <= |ps|
  {
    if i == 0 then []
    else
      var w := Kept(ps, i - 1);
      match ps[i - 1]
      case None => w
      case Some(k) => if k in w then w else w + [k]
  }

  /** Kept is the distinct rows of the prefix, in order of first occurrence. */
  lemma {:induction false} KeptDedup(ps: seq<Option<Item>>, i: nat)
    requires i <= |ps|
    ensures Kept(ps, i) == Dedup(Rows(ps[..i]))
  {
    if i > 0 {
      KeptDedup(ps, i - 1);
      RowsStep(ps, i - 1);
      var prev := Rows(ps[..i - 1]);
      if ps[i - 1].Some? {
        var k := ps[i - 1].value;
        DedupSnoc(prev, k);
        DedupMembers(prev);
        if k in prev {
          assert prev[IndexOf(prev, k)] in Dedup(prev);
        }
        if k in Dedup(prev) {
          assert Dedup(prev)[IndexOf(Dedup(prev), k)] in prev;
        }
      }
    }
  }

  /** `seen` holds exactly the rows written so far. */
  ghost predicate SeenIs(seen: set<Item>, written: seq<Item>) {
    forall it :: it in seen <==> it in written
  }
}
