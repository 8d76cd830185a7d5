/**
 * The e-reader model object: it loads a text file once, keeps the pages
 * built from it, and holds the current page number that the viewer moves
 * with "previous", "next" and "jump to page".
 *
 * The file is given as a LineSource: either the sequence of its lines, as
 * a line reader hands them out, or FileNotFound when it cannot be opened.
 * The loader walks the lines with a cursor in place of the reader's
 * hasNextLine/nextLine calls.  Change notifications to observers are
 * counted in the ghost field `notifications`.
 */
module EReaderModel {
  import opened Pagination
  import opened Navigation

  datatype LineSource = FileNotFound | Lines(lines: seq<string>)

  /** The lines the reader gets from `src`: none when the file cannot be opened. */
  function SourceLines(src: LineSource): seq<string>
  {
    match src
    case FileNotFound => []
    case Lines(lines) => lines
  }

  /** The loader ends exactly when the file is missing, is empty, or at least one line fits a page. */
  predicate LoadEnds(src: LineSource, linesPerPage: int)
  {
    Groupable(SourceLines(src), linesPerPage)
  }

  /** One more line on the page under construction adds its framed text at the end. */
  lemma PageTextAppend(lines: seq<string>, first: int, next: int)
    requires 0 <= first <= next < |lines|
    ensures PageText(lines[first..next + 1]) == PageText(lines[first..next]) + (Indent + lines[next] + "\n")
  {
    assert lines[first..next + 1][..next - first] == lines[first..next];
  }

  /** Adding the page that took Min(k, remaining) lines keeps "pages so far + pages of the rest == all pages". */
  lemma LoadStep(done: seq<string>, all: seq<string>, lines: seq<string>, k: int, first: int, next: int, page: string)
    requires k >= 1 && 0 <= first < next <= |lines| && next - first == Min(k, |lines| - first)
    requires done + Pages(lines[first..], k) == all
    requires page == PageText(lines[first..next])
    ensures (done + [page]) + Pages(lines[next..], k) == all
  {
    PagesUnfold(lines[first..], k);
    assert lines[first..][..next - first] == lines[first..next];
    assert lines[first..][next - first..] == lines[next..];
    var rest := Pages(lines[next..], k);
    assert (done + [page]) + rest == done + ([page] + rest);
  }

  class EReader {
    var linesPerPage: int
    var totalPages: int
    var pages: seq<string>
    var currPageNumber: int
    /** The lines that were loaded (none if the file could not be opened). */
    ghost const text: seq<string>
    /** How many change notifications have been sent to observers. */
    ghost var notifications: nat

    /** The pages are those of the loaded text, counted by totalPages, and the counter is bounded. */
    ghost predicate Valid()
      reads this
    {
      && Groupable(text, linesPerPage)
      && pages == Pages(text, linesPerPage)
      && totalPages == |pages|
      && Bounded(currPageNumber, totalPages)
    }

    constructor (source: LineSource, linesPerPage: int)
      requires LoadEnds(source, linesPerPage)
      ensures Valid()
      ensures this.linesPerPage == linesPerPage && text == SourceLines(source)
      ensures source.FileNotFound? ==> pages == [] && totalPages == 0
      ensures source.Lines? ==> pages == Pages(source.lines, linesPerPage)
      ensures currPageNumber == 1 && notifications == 0
    {
      this.linesPerPage := linesPerPage;
      pages := [];
      totalPages := 0;
      text := SourceLines(source);
      notifications := 0;
      new;
      LoadPages(source);
      currPageNumber := 1;
    }

    /** Appends to `pages` the pages of the file's lines, counting each in totalPages. */
    method LoadPages(source: LineSource)
      requires LoadEnds(source, linesPerPage)
      modifies this`pages, this`totalPages
      ensures pages == old(pages) + Pages(SourceLines(source), linesPerPage)
      ensures totalPages == old(totalPages) + |Pages(SourceLines(source), linesPerPage)|
    {
      if source.FileNotFound? {
        return;
      }
      var lines := source.lines;
      var next := 0;  // lines[next..] is what the reader has not handed out yet
      while next < |lines|
        invariant 0 <= next <= |lines|
        invariant pages + Pages(lines[next..], linesPerPage) == old(pages) + Pages(lines, linesPerPage)
        invariant totalPages - |pages| == old(totalPages) - |old(pages)|
        decreases |lines| - next
      {
        var currPage := "\n";
        var currLine := 0;
        ghost var first, donePages, doneCount := next, pages, totalPages;
        while currLine < linesPerPage && next < |lines|
          invariant pages == donePages && totalPages == doneCount
          invariant first <= next <= |lines|
          invariant currLine == next - first <= linesPerPage
          invariant currPage == PageText(lines[first..next])
        {
          PageTextAppend(lines, first, next);
          currPage := currPage + (Indent + lines[next] + "\n");
          currLine := currLine + 1;
          next := next + 1;
        }
        LoadStep(pages, old(pages) + Pages(lines, linesPerPage), lines, linesPerPage, first, next, currPage);
        pages := pages + [currPage];
        totalPages := totalPages + 1;
      }
    }

    /** Steps back one page unless on the first page. */
    method PrevPage()
      requires Valid()
      modifies this`currPageNumber, this`notifications
      ensures Valid()
      ensures old(currPageNumber) > 1 ==>
        currPageNumber == old(currPageNumber) - 1 && notifications == old(notifications) + 1
      ensures old(currPageNumber) <= 1 ==>
        currPageNumber == old(currPageNumber) && notifications == old(notifications)
      ensures currPageNumber == Step(old(currPageNumber), totalPages, Prev)
    {
      if currPageNumber > 1 {
        currPageNumber := currPageNumber - 1;
        notifications := notifications + 1;
      }
    }

    /** Steps forward one page unless on the last page. */
    method NextPage()
      requires Valid()
      modifies this`currPageNumber, this`notifications
      ensures Valid()
      ensures old(currPageNumber) < totalPages ==>
        currPageNumber == old(currPageNumber) + 1 && notifications == old(notifications) + 1
      ensures old(currPageNumber) >= totalPages ==>
        currPageNumber == old(currPageNumber) && notifications == old(notifications)
      ensures currPageNumber == Step(old(currPageNumber), totalPages, Next)
    {
      if currPageNumber < totalPages {
        currPageNumber := currPageNumber + 1;
        notifications := notifications + 1;
      }
    }

    /** Moves to page `pageNumber` if it exists; reports whether it did. */
    method JumpToPage(pageNumber: int) returns (ok: bool)
      requires Valid()
      modifies this`currPageNumber, this`notifications
      ensures Valid()
      ensures ok <==> 1 <= pageNumber <= totalPages
      ensures ok ==> currPageNumber == pageNumber && notifications == old(notifications) + 1
      ensures !ok ==> currPageNumber == old(currPageNumber) && notifications == old(notifications)
      ensures currPageNumber == Step(old(currPageNumber), totalPages, Jump(pageNumber))
    {
      if pageNumber < 1 || pageNumber > totalPages {
        return false;
      }
      currPageNumber := pageNumber;
      notifications := notifications + 1;
      return true;
    }

    /** The current page: the one showing lines (c-1)*k up to c*k of the file, for page c and k lines per page. */
    method GetCurrPage() returns (page: string)
      requires Valid() && totalPages >= 1
      ensures page == pages[currPageNumber - 1]
      ensures (currPageNumber - 1) * linesPerPage < |text|
      ensures page == PageText(PageLines(text, linesPerPage, currPageNumber - 1))
      ensures NoNewlines(text) ==> UnframePage(page) == Some(PageLines(text, linesPerPage, currPageNumber - 1))
    {
      page := pages[currPageNumber - 1];
      PageAt(text, linesPerPage, currPageNumber - 1);
      UnframePageAt(text, linesPerPage, currPageNumber - 1);
    }

    /** The current page number, between 1 and the page count (1 when there are no pages). */
    method GetCurrPageNumber() returns (n: int)
      requires Valid()
      ensures n == currPageNumber
      ensures 1 <= n && (totalPages >= 1 ==> n <= totalPages) && (totalPages == 0 ==> n == 1)
    {
      n := currPageNumber;
    }

    /** The number of pages: the loaded line count divided by the lines per page, rounded up. */
    method GetTotalPages() returns (n: int)
      requires Valid()
      ensures n == totalPages == |pages|
      ensures linesPerPage >= 1 ==> n == (|text| + linesPerPage - 1) / linesPerPage
      ensures n == 0 <==> text == []
    {
      n := totalPages;
      PageCount(text, linesPerPage);
    }
  }
}
