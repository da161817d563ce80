# X post generator — a Dafny model

`post_generator.py` fills a Google Sheets tab with short post texts. It picks
`count` texts from a fixed pool of 30 templates (`POST_TEMPLATES`) and writes
them one by one into column A of the tab, directly below the column's last
non-empty cell.

This project models that core in Dafny 4.11 and proves what it promises:

- **Selection** (`XPostGenerator.generate_posts`).
  - For `count <= 30` it samples without replacement.
  - For larger counts it takes a full shuffle of the pool, then `count - 30`
    draws with replacement.
  - The calls to `random.sample` and `random.choices` become oracle inputs:
    the index sequences they pick. A sample oracle is any sequence of
    distinct positions of the right length. A choices oracle is any sequence
    of positions.
  - Every contract holds for every outcome of the two calls.
- **Column append** (`XPostGenerator.write_to_spreadsheet`).
  - The worksheet is a class whose field `cells` holds column A as stored.
  - `col_values(1)` is the column trimmed of its trailing blank cells.
  - `update_cell(row, 1, value)` is a method that changes one cell. Sheets
    refuses a row outside the sheet's grid, so the method fails there.
  - The write loop is a method with a loop invariant.
  - On success, the new `col_values` is the old one followed by the posts.
    Every row outside the written block keeps its value.

Files:

| file | module | contents |
|---|---|---|
| `wrappers.dfy` | `Wrappers` | `Result` datatype for operations that raise |
| `generator.dfy` | `Generator` | the pool, the oracle predicates, `GeneratePosts` and its lemmas |
| `sheet.dfy` | `Sheet` | column trimming, cell writes, classes `Worksheet` and `Spreadsheet` |
| `writer.dfy` | `Writer` | `WritePosts` (the loop) and `WriteToSpreadsheet` |

The pool is modelled as 30 pairwise-distinct, non-blank opaque texts. Each
is `"template-"` followed by one distinct letter. The wording of the
source's 30 literals plays no part in any property. The model relies on
only three facts about them: there are 30 of them, they are pairwise distinct,
and none is empty.

## Model

| member | source | states |
|---|---|---|
| `Generator.TemplatePool` | post_generator.py:43-74 | the pool has exactly 30 entries, no entry occurs twice, and none is blank |
| `Generator.IsSampleDraw` | post_generator.py:114-117 | an outcome of `random.sample(pool, k)` on a pool of n entries is k distinct positions, each in 0..n-1 |
| `Generator.IsChoicesDraw` | post_generator.py:119 | an outcome of `random.choices(pool, k=k)` on a pool of n entries is k positions, each in 0..n-1, repeats allowed |
| `Generator.IsGenerateDraw` | post_generator.py:112-119 | what `generate_posts(count)` draws: for 0 <= count <= 30 a sample of count positions; for count > 30 a sample of all 30 positions and count - 30 choices; nothing for a negative count, where `random.sample` raises before drawing |
| `Generator.DrawDistinct` | post_generator.py:112-114 | distinct positions of a pool without repeats give posts without repeats (sampling without replacement) |
| `Generator.Draw` | post_generator.py:119 | drawing k positions yields k entries, each of them an entry of the pool |
| `Generator.Sample` | post_generator.py:114 | `random.sample(pool, k)` fails exactly when k is outside 0..len(pool); otherwise it yields k pool entries |
| `Generator.GeneratePosts` | post_generator.py:102-120 | `generate_posts(count)` fails exactly when count is negative; otherwise it returns exactly count posts, every one an element of `POST_TEMPLATES` |
| `Generator.PostsDistinctWithinPool` | post_generator.py:112-114 | for 0 <= count <= 30, generation succeeds and no post occurs twice |
| `Generator.FullSampleCovers` | post_generator.py:117 | 30 distinct positions of a 30-entry pool name every position (pigeonhole) |
| `Generator.FirstBatchIsPermutation` | post_generator.py:117 | for count > 30, the first 30 posts are a permutation of `POST_TEMPLATES` (equal multisets) |
| `Generator.EachTemplateOnceInFirstBatch` | post_generator.py:117 | for count > 30, every template occurs exactly once among the first 30 posts |
| `Generator.TopUpIsChoices` | post_generator.py:118-119 | for count > 30, exactly count - 30 posts follow the first 30; they are the with-replacement draws in order |
| `Generator.TopUpMayRepeat` | post_generator.py:116-119 | the draws after the first 30 may repeat a template: an admissible oracle gives 32 posts with a duplicate |
| `Generator.PostsNonBlank` | post_generator.py:43-74 | every generated post is non-blank, so writing it extends `col_values` |
| `Sheet.Trim` | post_generator.py:143 | `col_values` is a prefix of the stored column that ends in a non-blank cell, and only blank cells lie below it |
| `Sheet.Worksheet.ColValues` | post_generator.py:143 | `col_values(1)` is the stored column with its trailing blank cells dropped (`Trim`) |
| `Sheet.TrimUnique` | post_generator.py:143 | that prefix is unique: a column made of such a prefix and blank cells trims to exactly the prefix |
| `Sheet.BlankBelowTrim` | post_generator.py:143 | every stored cell below the end of `col_values` is blank |
| `Sheet.Put` | post_generator.py:155 | writing one cell sets that cell, extends the column to reach it, and leaves every other cell as it was |
| `Sheet.Overwrite` | post_generator.py:154-155 | writing a block from row t+1 on puts post i at index t+i and keeps every other stored cell |
| `Sheet.OverwriteCellAt` | post_generator.py:151-155 | the same, row by row, including rows past the stored cells: only rows t+1 .. t+len(posts) differ from before |
| `Sheet.OverwriteExtend` | post_generator.py:154-155 | writing `posts[i]` in row `start_row + i` after `posts[..i]` gives the block `posts[..i+1]` (the loop step) |
| `Sheet.OverwriteBelowTrim` | post_generator.py:151-155 | a block written from `len(a_column) + 1` on leaves `col_values`, then the block, then blank cells only |
| `Sheet.AppendAfterTrim` | post_generator.py:143-155 | writing a block that does not end blank from row `len(a_column) + 1` on makes `col_values` the old values followed by the block |
| `Sheet.Worksheet.constructor` | post_generator.py:139 | a new worksheet has an empty column A and the given number of rows |
| `Sheet.Worksheet.UpdateCell` | post_generator.py:155 | `update_cell(row, 1, value)` succeeds exactly for 1 <= row <= the row count, and then changes column A as `Put` says; otherwise nothing changes |
| `Sheet.Spreadsheet.OpenPostSheet` | post_generator.py:134-140 | returns the existing post tab unchanged, or adds a fresh empty tab of 1000 rows when it is missing |
| `Writer.WritePosts` | post_generator.py:154-157 | writes posts[i] into row start+i in order; succeeds exactly when the whole block fits in the grid; otherwise stops at the first refused row, with the rows before it written |
| `Writer.WriteToSpreadsheet` | post_generator.py:122-164 | writing starts at `len(a_column) + 1`; a negative count fails with no cell written; success means count >= 0 and the batch fits; column A is the old column overwritten from the start row by the posts written, which on success are all count posts (the logged range A{start}:A{start+count-1}); on success `col_values` is the old values followed by the posts |

## Left out

- Credential loading (post_generator.py:19-23) and `_authenticate` (post_generator.py:91-100): environment, base64/JSON decoding and service-account construction are I/O and foreign calls.
- Logging setup and every `logger` call (post_generator.py:26-34 and elsewhere): side effects only. The logged range is the ghost results `startRow` and `written` of `Writer.WriteToSpreadsheet`.
- The start-up `print` (post_generator.py:2) and `time.sleep(1)` (post_generator.py:157): both have no logical effect.
- `open_by_key` (post_generator.py:131): the opened spreadsheet is the `book` parameter of `Writer.WriteToSpreadsheet`. Its failure, and remote failures of `worksheet`, `add_worksheet` and `update_cell` (network, quota, permissions), are not modelled. The only failure of a cell write that is modelled is a row outside the grid.
- Other tabs of the spreadsheet: the tab title is a fixed literal, so `Spreadsheet` holds only the post tab, or no tab.
- `update_cell` takes a column argument; the source always passes 1, so `UpdateCell` writes column A only.
- The internal behaviour of `random.sample` and `random.choices`: library randomness, replaced by the oracle inputs described above.
- The wording of the 30 template texts: it plays no part in any property. The model keeps only their count, their distinctness and that each is non-empty.
- A `count` that is not an integer: the model takes an `int`.
- The default argument `count=10` of `generate_posts` (post_generator.py:102) and of `write_to_spreadsheet` (post_generator.py:122): `GeneratePosts` and `WriteToSpreadsheet` always take `count` explicitly; a call without it is the call with 10.
- `main()` (post_generator.py:166-189), with its hardcoded spreadsheet identifier, credential path and count of 10: configuration glue.
- main.py: an HTTP route that starts the generator as a subprocess and returns a fixed body. This is process and HTTP plumbing, so it is not part of this model. Concurrent runs that it may start, racing on one sheet, are outside the model too.
- Publishing posts from the sheet and marking rows done is not in post_generator.py or main.py and is not modelled.
