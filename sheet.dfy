/**
 * The part of a Google Sheets worksheet that write_to_spreadsheet touches:
 * column A, read with col_values(1) and written one cell at a time with
 * update_cell(row, 1, value).
 *
 * Column A is held as the sequence of its stored cells from row 1 on (row r
 * at index r - 1); every row past the end of that sequence is blank.
 */
module Sheet {

  /** The value of an empty cell. */
  const BLANK := ""

  /** The row count add_worksheet gives the post sheet when it creates it. */
  const NEW_SHEET_ROWS := 1000

  predicate AllBlank(s: seq<string>) {
    forall i :: 0 <= i < |s| ==> s[i] == BLANK
  }

  /** The value of the cell at index i (row i + 1): blank past the stored cells. */
  function CellAt(cells: seq<string>, i: nat): string {
    if i < |cells| then cells[i] else BLANK
  }

  /**
   * col_values: the column's values down to its last non-blank cell.  Blank
   * cells above that one are kept (as ""), blank cells below it are dropped.
   */
  function Trim(cells: seq<string>): (r: seq<string>)
    ensures |r| <= |cells| && r == cells[..|r|]
    ensures r == [] || r[|r| - 1] != BLANK
    ensures AllBlank(cells[|r|..])
  {
    if cells == [] || cells[|cells| - 1] != BLANK then cells
    else Trim(cells[..|cells| - 1])
  }

  /** Trim is the only prefix that ends in a non-blank cell and leaves only blanks behind. */
  lemma {:induction false} TrimUnique(prefix: seq<string>, tail: seq<string>)
    requires prefix == [] || prefix[|prefix| - 1] != BLANK
    requires AllBlank(tail)
    ensures Trim(prefix + tail) == prefix
  {
    if tail == [] {
      assert prefix + tail == prefix;
    } else {
      var cells := prefix + tail;
      var shorter := tail[..|tail| - 1];
      assert cells[|cells| - 1] == tail[|tail| - 1] == BLANK;
      assert cells[..|cells| - 1] == prefix + shorter;
      TrimUnique(prefix, shorter);
    }
  }

  /** n blank cells. */
  function Blanks(n: nat): (r: seq<string>)
    ensures |r| == n && AllBlank(r)
  {
    seq(n, _ => BLANK)
  }

  /**
   * The column after update_cell writes v at index k (row k + 1): that cell
   * holds v, the column reaches at least that far, and every other cell keeps
   * its value.
   */
  function Put(cells: seq<string>, k: nat, v: string): (r: seq<string>)
    ensures |r| == if k < |cells| then |cells| else k + 1
    ensures r[k] == v
    ensures forall i :: 0 <= i < |r| && i != k ==> r[i] == CellAt(cells, i)
  {
    if k < |cells| then cells[k := v] else cells + Blanks(k - |cells|) + [v]
  }

  /**
   * The column after the values p are written into consecutive cells from
   * index t on: those cells hold p, every other cell keeps its value.
   */
  function Overwrite(cells: seq<string>, t: nat, p: seq<string>): (r: seq<string>)
    requires t <= |cells|
    ensures |r| == if t + |p| < |cells| then |cells| else t + |p|
    ensures forall i :: 0 <= i < |r| ==>
              r[i] == if t <= i < t + |p| then p[i - t] else cells[i]
  {
    if t + |p| < |cells| then cells[..t] + p + cells[t + |p|..] else cells[..t] + p
  }

  /** Overwrite row by row: rows past the stored cells read as blank before and after. */
  lemma OverwriteCellAt(cells: seq<string>, t: nat, p: seq<string>)
    requires t <= |cells|
    ensures forall k :: 0 <= k ==>
              CellAt(Overwrite(cells, t, p), k) == if t <= k < t + |p| then p[k - t] else CellAt(cells, k)
  {
  }

  /** Writing posts[i] just below the block posts[..i] extends the block by one. */
  lemma OverwriteExtend(cells: seq<string>, t: nat, posts: seq<string>, i: nat)
    requires t <= |cells| && i < |posts|
    ensures Put(Overwrite(cells, t, posts[..i]), t + i, posts[i]) == Overwrite(cells, t, posts[..i + 1])
  {
    var lhs := Put(Overwrite(cells, t, posts[..i]), t + i, posts[i]);
    var rhs := Overwrite(cells, t, posts[..i + 1]);
    assert |lhs| == |rhs|;
    forall k | 0 <= k < |lhs|
      ensures lhs[k] == rhs[k]
    {
      if t <= k <= t + i {
        assert posts[..i + 1][k - t] == posts[k - t];
      }
    }
  }

  /** Every cell below the last non-blank one is blank. */
  lemma BlankBelowTrim(cells: seq<string>, k: nat)
    requires |Trim(cells)| <= k <= |cells|
    ensures AllBlank(cells[k..])
  {
    var t := |Trim(cells)|;
    forall i | 0 <= i < |cells| - k
      ensures cells[k..][i] == BLANK
    {
      assert cells[k..][i] == cells[t..][k - t + i];
    }
  }

  /** A block written right below the last non-blank cell leaves only blanks below it. */
  lemma OverwriteBelowTrim(cells: seq<string>, p: seq<string>) returns (tail: seq<string>)
    ensures AllBlank(tail)
    ensures Overwrite(cells, |Trim(cells)|, p) == Trim(cells) + p + tail
  {
    var trimmed := Trim(cells);
    var t := |trimmed|;
    if t + |p| < |cells| {
      tail := cells[t + |p|..];
      BlankBelowTrim(cells, t + |p|);
      assert Overwrite(cells, t, p) == cells[..t] + p + tail;
    } else {
      tail := [];
      assert Overwrite(cells, t, p) == cells[..t] + p;
      assert trimmed + p + tail == trimmed + p;
    }
  }

  /**
   * Writing a block of values right below the last non-blank cell appends it
   * to col_values, provided the block does not end in a blank.
   */
  lemma AppendAfterTrim(cells: seq<string>, p: seq<string>)
    requires p == [] || p[|p| - 1] != BLANK
    ensures Trim(Overwrite(cells, |Trim(cells)|, p)) == Trim(cells) + p
  {
    var tail := OverwriteBelowTrim(cells, p);
    var prefix := Trim(cells) + p;
    if p != [] {
      assert prefix[|prefix| - 1] == p[|p| - 1];
    }
    TrimUnique(prefix, tail);
  }

  /** A worksheet: its column A and its grid size. */
  class Worksheet {
    var cells: seq<string>
    const rowCount: nat

    ghost predicate Valid()
      reads this
    {
      |cells| <= rowCount
    }

    /** An empty worksheet with the given number of rows. */
    constructor (rows: nat)
      ensures Valid() && cells == [] && rowCount == rows
    {
      cells := [];
      rowCount := rows;
    }

    /** col_values(1). */
    function ColValues(): seq<string>
      reads this
    {
      Trim(cells)
    }

    /**
     * update_cell(row, 1, value).  Sheets refuses a row outside the grid
     * (rows are 1-based and at most rowCount); the column then stays as it was.
     */
    method UpdateCell(row: int, value: string) returns (ok: bool)
      requires Valid()
      modifies this
      ensures Valid()
      ensures ok <==> 1 <= row <= rowCount
      ensures cells == if ok then Put(old(cells), row - 1, value) else old(cells)
    {
      ok := 1 <= row <= rowCount;
      if ok {
        cells := Put(cells, row - 1, value);
      }
    }
  }

  /** A spreadsheet, as far as it holds (or lacks) the tab the posts go to. */
  class Spreadsheet {
    var postSheet: Worksheet?

    ghost predicate Valid()
      reads this, postSheet
    {
      postSheet != null ==> postSheet.Valid()
    }

    constructor (existing: Worksheet?)
      requires existing != null ==> existing.Valid()
      ensures Valid() && postSheet == existing
    {
      postSheet := existing;
    }

    /** Column A of the post sheet; an absent sheet has no cells. */
    ghost function PostColumn(): seq<string>
      reads this, postSheet
    {
      if postSheet == null then [] else postSheet.cells
    }

    /**
     * worksheet(title), and add_worksheet(title, rows=1000, cols=1) when no
     * such tab exists.
     */
    method OpenPostSheet() returns (ws: Worksheet)
      requires Valid()
      modifies this
      ensures Valid() && postSheet == ws
      ensures old(postSheet) != null ==> ws == old(postSheet)
      ensures old(postSheet) == null ==> fresh(ws) && ws.cells == [] && ws.rowCount == NEW_SHEET_ROWS
      ensures ws.cells == old(PostColumn())
    {
      if postSheet == null {
        ws := new Worksheet(NEW_SHEET_ROWS);
        postSheet := ws;
      } else {
        ws := postSheet;
      }
    }
  }
}
