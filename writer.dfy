/**
 * XPostGenerator.write_to_spreadsheet: generate the posts, then write them
 * one cell at a time into column A of the post sheet, starting right below
 * the column's last non-blank cell.
 */
module Writer {
  import opened Generator
  import opened Sheet

  /**
   * The loop of write_to_spreadsheet: update_cell(startRow + i, 1, posts[i])
   * for each i in turn.  It stops at the first cell Sheets refuses (that
   * exception leaves the loop); written says how many cells were stored.
   */
  method WritePosts(ws: Worksheet, startRow: int, posts: seq<string>)
    returns (ok: bool, ghost written: nat)
    requires ws.Valid()
    requires 1 <= startRow <= |ws.cells| + 1
    modifies ws
    ensures ws.Valid()
    ensures ok <==> startRow - 1 + |posts| <= ws.rowCount
    ensures written == if ok then |posts| else ws.rowCount - (startRow - 1)
    ensures ws.cells == Overwrite(old(ws.cells), startRow - 1, posts[..written])
  {
    ghost var before := ws.cells;
    var i := 0;
    while i < |posts|
      invariant i <= |posts|
      invariant ws.Valid()
      invariant startRow - 1 + i <= ws.rowCount
      invariant ws.cells == Overwrite(before, startRow - 1, posts[..i])
    {
      var stored := ws.UpdateCell(startRow + i, posts[i]);
      if !stored {
        return false, i;
      }
      OverwriteExtend(before, startRow - 1, posts, i);
      i := i + 1;
    }
    assert posts[..i] == posts;
    return true, i;
  }

  /**
   * Returns whether the whole batch was written; an exception anywhere is
   * caught and reported as false.  The ghost results give the first row
   * written (start_row) and how many rows were written; on success those are
   * the rows A{start_row}:A{start_row + count - 1} that the source logs.
   */
  method WriteToSpreadsheet(book: Spreadsheet, count: int, samplePicks: seq<int>, choicePicks: seq<int>)
    returns (ok: bool, ghost startRow: int, ghost written: nat)
    requires book.Valid()
    requires IsGenerateDraw(count, samplePicks, choicePicks)
    modifies book, book.postSheet
    ensures book.Valid() && book.postSheet != null
    ensures old(book.postSheet) != null ==> book.postSheet == old(book.postSheet)
    ensures old(book.postSheet) == null ==>
              fresh(book.postSheet) && book.postSheet.rowCount == NEW_SHEET_ROWS
    // writing starts one row past the current column-A values
    ensures startRow == |Trim(old(book.PostColumn()))| + 1
    // a negative count fails in generate_posts, before any cell is written
    ensures count < 0 ==> !ok && written == 0 && book.postSheet.cells == old(book.PostColumn())
    // otherwise the batch is written in order until it is done or leaves the grid:
    // post i lands in row startRow + i, and no other row changes (OverwriteCellAt)
    ensures ok <==> count >= 0 && startRow - 1 + count <= book.postSheet.rowCount
    ensures count >= 0 ==>
              written == (if ok then count else book.postSheet.rowCount - (startRow - 1)) &&
              book.postSheet.cells ==
                Overwrite(old(book.PostColumn()), startRow - 1,
                          GeneratePosts(count, samplePicks, choicePicks).value[..written])
    // on success column A reads as the old values followed by the posts
    ensures ok ==> book.postSheet.ColValues()
                   == Trim(old(book.PostColumn())) + GeneratePosts(count, samplePicks, choicePicks).value
  {
    var ws := book.OpenPostSheet();
    ghost var before := ws.cells;
    var aColumn := ws.ColValues();
    var generated := GeneratePosts(count, samplePicks, choicePicks);
    var start := |aColumn| + 1;
    startRow := start;
    if generated.Failure? {
      return false, startRow, 0;
    }
    var posts := generated.value;
    ok, written := WritePosts(ws, start, posts);
    if ok {
      assert posts[..written] == posts;
      PostsNonBlank(count, samplePicks, choicePicks);
      AppendAfterTrim(before, posts);
    }
  }
}
