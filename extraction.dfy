/**
 * The loop of `generate_sample_items_csv` in `data/preprocess.py`: read the
 * lines in order, skip the malformed ones and the rows already written,
 * write the others, and stop once the row count reaches `max_rows`. The
 * file handles and the CSV writer are replaced by the sequence of decoded
 * lines and the sequence of rows written.
 */
module Extraction {
  import opened Seqs
  import opened ItemRows
  import opened Preprocess

  /**
   * Line `i` stripped, split on `|` and cut down to its first two fields:
   * the loop body's per-line parse (lines 98-101 of `data/preprocess.py`),
   * carried over to the ghost sequence `ParseAll(lines)` that the loop
   * invariant speaks about; `ParseLineSkips` and `ParseLineShape` say what
   * the parse means.
   */
  method ReadLine(lines: seq<string>, i: nat) returns (r: Option<Item>)
    requires i < |lines|
    ensures r == ParseAll(lines)[i]
  {
    r := ParseLine(lines[i]);
    ParseAllAt(lines, i);
  }

  /** The loop's two exits in terms of the lines: what was written is the expected output. */
  lemma Finished(lines: seq<string>, maxRows: Option<int>, consumed: nat, written: seq<Item>)
    requires consumed <= |lines| && written == Kept(ParseAll(lines), consumed)
    requires consumed < |lines| ==> maxRows.Some? && |written| == Cap(maxRows.value)
    requires consumed == |lines| && maxRows.Some? ==> |written| <= Cap(maxRows.value)
    ensures written == Expected(lines, maxRows)
  {
    Finish(ParseAll(lines), maxRows, consumed, written);
  }

  /**
   * The extraction loop. `rows` counts the rows written; `consumed` is how
   * many lines were read before the loop ended: all of them, or exactly up
   * to the line whose row reached the cap.
   */
  method GenerateSampleItems(lines: seq<string>, maxRows: Option<int>)
    returns (written: seq<Item>, rows: int, ghost consumed: nat)
    ensures written == Expected(lines, maxRows)
    ensures rows == |written|
    ensures consumed <= |lines| && written == Kept(ParseAll(lines), consumed)
    ensures consumed < |lines| ==> (
      && maxRows.Some? && rows == Cap(maxRows.value) && 1 <= consumed
      && |Kept(ParseAll(lines), consumed - 1)| < rows)
    ensures maxRows.Some? && consumed > 0 ==> |Kept(ParseAll(lines), consumed - 1)| < Cap(maxRows.value)
  {
    ghost var ps := ParseAll(lines);
    var seen: set<Item> := {};
    written, rows := [], 0;
    consumed := |lines|;
    var i := 0;
    while i < |lines|
      invariant 0 <= i <= |lines|
      invariant written == Kept(ps, i)
      invariant SeenIs(seen, written)
      invariant rows == |written|
      invariant maxRows.Some? ==> rows < Cap(maxRows.value)
    {
      var parsed := ReadLine(lines, i);
      if parsed.Some? {
        var key := parsed.value;
        if key !in seen {
          seen := seen + {key};
          written := written + [key];
          rows := rows + 1;
          if maxRows.Some? && rows >= maxRows.value {
            consumed := i + 1;
            assert |Kept(ps, consumed - 1)| < rows;
            break;
          }
        }
      }
      i := i + 1;
    }
    Finished(lines, maxRows, consumed, written);
  }
}
