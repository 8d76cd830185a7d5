# EReader pagination and navigation, in Dafny

This project models the model half of a small desktop e-reader
(`model/EReader.java`). The reader loads a text file once. It splits the
lines into pages of at most `linesPerPage` lines. It keeps a 1-indexed current
page number, which the viewer moves with "previous", "next" and
"jump to page".

- `pagination.dfy` (module `Pagination`) is the specification of the pages.
  A page is one line break followed by `"   " + line + "\n"` for each of its
  lines. `Chunks` groups the lines into runs of `k`, `Render` turns each run
  into page text, and `Pages` is the two together. The lemmas prove four
  things. The page count is the ceiling of `|lines| / k`. Every page but the
  last is full, and the last holds `|lines| mod k` lines (or `k`). Page `i`
  holds lines `i*k` up to `(i+1)*k`. A reader for the framing (`UnframePage`,
  `UnframeAll`) gets back exactly the lines that went in.
- `navigation.dfy` (module `Navigation`) is the specification of the page
  counter. `Step` gives the counter after a request (`Prev`, `Next`,
  `Jump(n)`). `Notifies` says whether the request sends a change
  notification. `Run` replays a series of requests.
- `ereader.dfy` (module `EReaderModel`) is the object itself, the class
  `EReader`, with fields `linesPerPage`, `totalPages`, `pages` and
  `currPageNumber`.
  - `LoadPages` keeps the source's two nested `while` loops. It builds each
    page with repeated appends and adds it to `pages`. It is proved to append
    exactly `Pages(lines, linesPerPage)`.
  - `PrevPage`, `NextPage` and `JumpToPage` are proved against `Step`. Each
    bumps the ghost counter `notifications` exactly when the source calls
    `setChanged(); notifyObservers()`.
  - `Valid()` is the object invariant. It says `pages` are the pages of the
    loaded text and `totalPages == |pages|`. It also says
    `1 <= currPageNumber <= totalPages`, or `currPageNumber == 1` when there
    are no pages. The constructor establishes it, and every navigation
    method preserves it. The navigation methods can change only
    `currPageNumber` and `notifications`.

The file is given as a `LineSource`, either `Lines(lines)` or
`FileNotFound`. `FileNotFound` yields no pages and no error, and the page
number is still set to 1, as in the source.

The constructor's precondition is the exact condition under which the
source's loader terminates. It holds when the file is missing, when the file
is empty, or when `linesPerPage >= 1`. The source does not check
`linesPerPage`. With a value of 0 or less and at least one line, the outer
loop never advances.

When there are no pages, the source leaves `currPageNumber` at 1. The model
does the same: `Bounded` accepts 1 for an empty document, and
`EmptyDocumentIsFrozen` shows that no request moves the counter or sends a
notification. An accepted `jumpToPage` to the current page still notifies,
because the source calls `setChanged` whenever the range check passes.

## Model

| member | source | states |
|---|---|---|
| EReaderModel.EReader.constructor | EReader_Project_Design/src/model/EReader.java:22-29 | assuming the loader ends, establishes `Valid()`. `pages` are the pages of the file's lines, or none when the file is missing. `totalPages` is the number of pages, `currPageNumber == 1`, and no notification has been sent |
| EReaderModel.EReader.LoadPages | EReader_Project_Design/src/model/EReader.java:34-58 | appends to `pages` exactly `Pages(lines, linesPerPage)` and adds their number to `totalPages`. A missing file appends nothing. The nested loops' invariants say the pages built so far plus the pages of the unread lines are all the pages |
| EReaderModel.PageTextAppend | EReader_Project_Design/src/model/EReader.java:46-49 | one more pass of the inner loop extends the page under construction by `"   " + line + "\n"`, and the result is still the page text of the lines consumed |
| EReaderModel.LoadStep | EReader_Project_Design/src/model/EReader.java:43-52 | the page made by one outer pass holds the first `min(k, remaining)` unread lines. Adding it keeps "pages so far + pages of the rest == all pages" |
| EReaderModel.EReader.PrevPage | EReader_Project_Design/src/model/EReader.java:61-67 | if `currPageNumber > 1`, decrements it and sends one notification. Otherwise nothing changes and nothing is sent. Keeps `Valid()`, `pages` and `totalPages` |
| EReaderModel.EReader.NextPage | EReader_Project_Design/src/model/EReader.java:70-76 | if `currPageNumber < totalPages`, increments it and sends one notification. Otherwise nothing changes. Keeps `Valid()`, `pages` and `totalPages` |
| EReaderModel.EReader.JumpToPage | EReader_Project_Design/src/model/EReader.java:80-88 | returns true exactly when `1 <= n <= totalPages`. Then `currPageNumber == n` and one notification is sent. Otherwise the state is unchanged and nothing is sent. Keeps `Valid()` |
| EReaderModel.EReader.GetCurrPage | EReader_Project_Design/src/model/EReader.java:94-96 | with at least one page, returns `pages[currPageNumber - 1]`. That is the page of lines `(c-1)*k` up to `c*k` of the file, and reading it back gives exactly those lines |
| EReaderModel.EReader.GetCurrPageNumber | EReader_Project_Design/src/model/EReader.java:98-100 | returns `currPageNumber`, which lies between 1 and `totalPages`, or is 1 when there are no pages |
| EReaderModel.EReader.GetTotalPages | EReader_Project_Design/src/model/EReader.java:102-104 | returns `totalPages`, the number of pages. This is the ceiling of the line count over `linesPerPage`, and it is 0 exactly when no lines were loaded |
| Pagination.Render | EReader_Project_Design/src/model/EReader.java:43-52 | one page per chunk, in order, and page `i` is the page text of chunk `i` |
| Pagination.PageLines | EReader_Project_Design/src/model/EReader.java:43-52 | the lines a page should show, from `i*k` up to `(i+1)*k` cut at the end of the file. There are between 1 and `k` of them |
| Pagination.PagesUnfold | EReader_Project_Design/src/model/EReader.java:43-52 | the first page holds the first `min(k, L)` of the `L` lines, and the rest are the pages of the remaining lines |
| Pagination.ChunksFlatten | EReader_Project_Design/src/model/EReader.java:43-52 | the line groups, joined, are the input lines, with nothing lost, repeated or reordered |
| Pagination.ChunksCount | EReader_Project_Design/src/model/EReader.java:43-52 | the number of groups is `(L + k - 1) / k` for `L` lines, the ceiling of `L / k` |
| Pagination.ChunksSizes | EReader_Project_Design/src/model/EReader.java:43-52 | every group holds between 1 and `k` lines, and every group but the last holds exactly `k` |
| Pagination.LastChunkSize | EReader_Project_Design/src/model/EReader.java:43-52 | for a non-empty file the last group of `L` lines holds `L mod k` lines, or `k` when that is 0 |
| Pagination.ChunkAt | EReader_Project_Design/src/model/EReader.java:43-52 | group `i` is the slice of lines from `i*k` up to `(i+1)*k`, or to the end of the file if that comes first |
| Pagination.PageCount | EReader_Project_Design/src/model/EReader.java:43-52 | the number of pages equals the number of groups and is the ceiling of the line count over `k`. There are no pages exactly when there are no lines |
| Pagination.PageAt | EReader_Project_Design/src/model/EReader.java:43-52 | page `i` is the page text of lines `i*k` up to `(i+1)*k` |
| Pagination.HundredLinesAtThirtySix | EReader_Project_Design/src/controller/EReaderGUI.java:67 | at the viewer's 36 lines per page, a 100-line file gives 3 pages, and the last one holds 28 lines |
| Pagination.UnframeFrameAll | EReader_Project_Design/src/model/EReader.java:47 | for lines without line breaks, reading back the framed lines `"   " + line + "\n"` gives exactly those lines |
| Pagination.UnframePageText | EReader_Project_Design/src/model/EReader.java:44-50 | reading back a page, meaning its leading line break and its framed lines, gives exactly the lines it was built from |
| Pagination.UnframePageAt | EReader_Project_Design/src/model/EReader.java:43-52 | reading back page `i` gives lines `i*k` up to `(i+1)*k` of the file |
| Pagination.PagesRoundTrip | EReader_Project_Design/src/model/EReader.java:44-50 | stripping the framing from all pages in order gives back the original line sequence |
| Pagination.PagesInjective | EReader_Project_Design/src/model/EReader.java:44-50 | two files whose lines give the same pages have the same lines |
| Navigation.StepBounded | EReader_Project_Design/src/model/EReader.java:61-88 | every previous, next or jump request keeps `1 <= curr <= total` (or `curr == 1` with no pages) |
| Navigation.ChangeIsNotified | EReader_Project_Design/src/model/EReader.java:61-88 | a request that changes the counter always notifies, and a request that does not notify leaves it unchanged |
| Navigation.OutOfRangeJumpIsNoOp | EReader_Project_Design/src/model/EReader.java:80-82 | a jump to `n < 1` or `n > total` is refused, sends nothing and leaves the counter as it is |
| Navigation.JumpToCurrent | EReader_Project_Design/src/model/EReader.java:80-88 | with at least one page, a jump to the current page succeeds and leaves the counter unchanged |
| Navigation.EndsAbsorb | EReader_Project_Design/src/model/EReader.java:61-76 | "previous" on page 1 and "next" on the last page are no-ops without a notification |
| Navigation.PrevNextInverse | EReader_Project_Design/src/model/EReader.java:61-76 | "previous" then "next" returns to the page unless it was the first. "Next" then "previous" returns unless it was the last |
| Navigation.RunBounded | EReader_Project_Design/src/model/EReader.java:61-88 | any series of requests keeps the counter bounded and sends at most one notification per request |
| Navigation.EmptyDocumentIsFrozen | EReader_Project_Design/src/model/EReader.java:61-88 | with no pages, no series of requests moves the counter off 1 or sends a notification |

## Left out

- `controller/EReaderGUI.java` is not part of this model. It holds Swing layout, menus, dialogs, key and button listeners, dark mode, and the jump field's `Integer.parseInt`, and it only forwards to the methods modelled here. Only its constant of 36 lines per page appears, in `HundredLinesAtThirtySix`.
- Opening and reading the file with `Scanner` and `File`, and closing it, are input. The file's lines are a parameter (`LineSource`). Which characters the line reader treats as line separators is not modelled. The round-trip lemmas assume only that no line contains `'\n'`.
- The observer machinery (`Observable`, `setChanged`, `notifyObservers`, the listeners' `update`) is modelled as the ghost counter `notifications`. Dispatch to observers is not modelled.
- The `filename` field is not modelled. Its only role is to name the file to load, so the `LineSource` takes its place.
- Java's 32-bit `int` is not modelled. `totalPages` is at most the number of lines and `currPageNumber` stays within `1..max(1, totalPages)`, so neither can wrap around.
- GetCurrPage: with zero pages the source's `pages.get(currPageNumber - 1)` reads index 0 of an empty list and throws an index-out-of-bounds exception. The model excludes that call with `requires totalPages >= 1` and does not return an error value. The viewer calls this method at start-up (`EReaderGUI.java:70`), so a missing or empty file would fail there.
- EReaderModel.EReader.constructor: a non-empty file with `linesPerPage <= 0` makes the source loop forever. The model excludes that case with a precondition instead of modelling the divergence.
