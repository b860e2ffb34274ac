/**
 * What `generate_sample_items_csv` in `data/preprocess.py` writes.
 *
 * The MovieLens `u.item` file is a sequence of `|`-separated records. Each
 * line is stripped of surrounding whitespace and split on `|`; a line with
 * fewer than two fields is skipped, otherwise its first two fields form the
 * row (item id, title). A row already written is skipped, and with a row
 * cap the output ends with the row that reaches it. This module defines the
 * line parser and the expected output, and proves what the output is.
 */
module Preprocess {
  import opened Seqs
  import opened Text
  import opened ItemRows

  /**
   * One input line: `None` when `line.strip().split("|")` has fewer than two
   * fields, otherwise the first two fields; any further fields are ignored.
   */
  function ParseLine(line: string): Option<Item> {
    var parts := Split(Strip(line), '|');
    if |parts| < 2 then None else Some(Item(parts[0], parts[1]))
  }

  /** A line is skipped exactly when its stripped text has no `|`. */
  lemma ParseLineSkips(line: string)
    ensures ParseLine(line).None? <==> '|' !in Strip(line)
  {
    SplitPieces(Strip(line), '|');
  }

  /** The first two pieces of a join, then the rest. */
  lemma JoinFront(parts: seq<string>, sep: char)
    requires |parts| >= 2
    ensures |parts| == 2 ==> Join(parts, sep) == parts[0] + [sep] + parts[1]
    ensures |parts| > 2 ==> Join(parts, sep) == parts[0] + [sep] + parts[1] + [sep] + Join(parts[2..], sep)
  {
    assert parts[1..][1..] == parts[2..];
  }

  /**
   * What a kept line looks like: its stripped text is the id, a `|` and the
   * title, possibly followed by a `|` and further fields; neither the id nor
   * the title contains a `|`.
   */
  lemma ParseLineShape(line: string)
    requires ParseLine(line).Some?
    ensures var it, t := ParseLine(line).value, Strip(line);
      && '|' !in it.itemId && '|' !in it.title
      && (t == it.itemId + ['|'] + it.title || it.itemId + ['|'] + it.title + ['|'] <= t)
  {
    var t := Strip(line);
    var parts := Split(t, '|');
    JoinSplit(t, '|');
    SplitPieces(t, '|');
    JoinFront(parts, '|');
  }

  /** What each line parses to, line by line. */
  function ParseAll(lines: seq<string>): (ps: seq<Option<Item>>)
    ensures |ps| == |lines|
  {
    if lines == [] then [] else ParseAll(lines[..|lines| - 1]) + [ParseLine(lines[|lines| - 1])]
  }

  /** Position `i` of ParseAll is the parse of line `i`. */
  lemma {:induction false} ParseAllAt(lines: seq<string>, i: nat)
    requires i < |lines|
    ensures ParseAll(lines)[i] == ParseLine(lines[i])
  {
    if i < |lines| - 1 {
      var init := lines[..|lines| - 1];
      assert lines[i] == init[i];
      ParseAllAt(init, i);
    }
  }

  /** The rows the well-formed lines yield, in line order, duplicates included. */
  function Parsed(lines: seq<string>): seq<Item> {
    Rows(ParseAll(lines))
  }

  /** Every row comes from some line, and every well-formed line yields its row. */
  lemma ParsedFromLines(lines: seq<string>)
    ensures forall j :: 0 <= j < |Parsed(lines)| ==>
              exists i :: 0 <= i < |lines| && ParseLine(lines[i]) == Some(Parsed(lines)[j])
    ensures forall i :: 0 <= i < |lines| && ParseLine(lines[i]).Some? ==> ParseLine(lines[i]).value in Parsed(lines)
  {
    var ps := ParseAll(lines);
    forall j | 0 <= j < |Rows(ps)| ensures exists i :: 0 <= i < |lines| && ParseLine(lines[i]) == Some(Rows(ps)[j]) {
      RowsFrom(ps, j);
      var i :| 0 <= i < |ps| && ps[i] == Some(Rows(ps)[j]);
      ParseAllAt(lines, i);
    }
    forall i | 0 <= i < |lines| && ParseLine(lines[i]).Some? ensures ParseLine(lines[i]).value in Rows(ps) {
      ParseAllAt(lines, i);
      InRows(ps, i);
    }
  }

  /**
   * The rows the extraction writes: the distinct rows in order of first
   * occurrence, cut off at the cap.
   */
  function Expected(lines: seq<string>, maxRows: Option<int>): seq<Item> {
    Capped(Dedup(Parsed(lines)), maxRows)
  }

  /** No row is written twice, and what is written is the front of the distinct rows. */
  lemma ExpectedDistinct(lines: seq<string>, maxRows: Option<int>)
    ensures NoDup(Expected(lines, maxRows))
    ensures |Expected(lines, maxRows)| <= |Dedup(Parsed(lines))|
    ensures Expected(lines, maxRows) == Dedup(Parsed(lines))[..|Expected(lines, maxRows)|]
  {
    var d := Dedup(Parsed(lines));
    DedupNoDup(Parsed(lines));
    var e := Expected(lines, maxRows);
    forall i, j | 0 <= i < j < |e| ensures e[i] != e[j] {
      assert e[i] == d[i] && e[j] == d[j];
    }
  }

  /** Every written row is the first two fields of some input line. */
  lemma ExpectedFromLines(lines: seq<string>, maxRows: Option<int>, j: nat)
    requires j < |Expected(lines, maxRows)|
    ensures exists i :: 0 <= i < |lines| && ParseLine(lines[i]) == Some(Expected(lines, maxRows)[j])
  {
    ExpectedDistinct(lines, maxRows);
    var p := Parsed(lines);
    var d := Dedup(p);
    DedupMembers(p);
    assert Expected(lines, maxRows)[j] == d[j];
    var k := IndexOf(p, d[j]);
    ParsedFromLines(lines);
    assert exists i :: 0 <= i < |lines| && ParseLine(lines[i]) == Some(p[k]);
  }

  /** Written rows keep the order in which they first occur in the input. */
  lemma ExpectedOrder(lines: seq<string>, maxRows: Option<int>, i: nat, j: nat)
    requires i < j < |Expected(lines, maxRows)|
    ensures var e, p := Expected(lines, maxRows), Parsed(lines);
      e[i] in p && e[j] in p && IndexOf(p, e[i]) < IndexOf(p, e[j])
  {
    ExpectedDistinct(lines, maxRows);
    DedupOrder(Parsed(lines), i, j);
  }

  /** Without a cap, every well-formed line has its row written. */
  lemma UncappedComplete(lines: seq<string>, i: nat)
    requires i < |lines| && ParseLine(lines[i]).Some?
    ensures ParseLine(lines[i]).value in Expected(lines, None)
  {
    ParsedFromLines(lines);
    var p := Parsed(lines);
    DedupMembers(p);
    assert p[IndexOf(p, ParseLine(lines[i]).value)] in Dedup(p);
  }

  /**
   * With `max_rows = m`, at most `max(m, 1)` rows are written, and exactly
   * that many when there are enough distinct rows; so a cap of zero or
   * below still writes one row as soon as some line is well formed.
   */
  lemma CappedCount(lines: seq<string>, m: int)
    ensures |Expected(lines, Some(m))| <= Cap(m)
    ensures m >= 1 ==> |Expected(lines, Some(m))| <= m
    ensures |Dedup(Parsed(lines))| >= Cap(m) ==> |Expected(lines, Some(m))| == Cap(m)
    ensures |Dedup(Parsed(lines))| < Cap(m) ==> Expected(lines, Some(m)) == Dedup(Parsed(lines))
  {
  }

  /** A cap of zero or below writes exactly one row once any line is well formed. */
  lemma NonPositiveCap(lines: seq<string>, m: int, i: nat)
    requires m <= 0 && i < |lines| && ParseLine(lines[i]).Some?
    ensures |Expected(lines, Some(m))| == 1
  {
    ParsedFromLines(lines);
    var p := Parsed(lines);
    DedupMembers(p);
    assert p[IndexOf(p, ParseLine(lines[i]).value)] in Dedup(p);
  }
}
