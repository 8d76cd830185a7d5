/**
 * How the e-reader turns the lines of a text file into pages.
 *
 * A page is built from up to `linesPerPage` consecutive lines: it starts
 * with one line break, and every line on it is written as three spaces of
 * indentation, the line itself and a line break.  Consecutive pages take
 * consecutive groups of lines, so every page but the last is full.
 *
 * This module is the specification that the imperative loader in
 * ereader.dfy is proved against, together with the facts about it:
 * the page count is a ceiling division, the groups have the sizes above
 * and sit at the expected offsets, and stripping the framing from the
 * pages gives the lines back.
 */
module Pagination {

  datatype Option<T> = None | Some(value: T)

  function Min(a: int, b: int): int { if a <= b then a else b }

  /** The indentation written in front of every line of a page. */
  const Indent: string := "   "

  /** One source line as it appears on a page. */
  function FramedLine(line: string): string { Indent + line + "\n" }

  /** The framed lines one after another, built left to right as the loader appends them. */
  function FrameAll(lines: seq<string>): string
    decreases |lines|
  {
    if lines == [] then "" else FrameAll(lines[..|lines| - 1]) + FramedLine(lines[|lines| - 1])
  }

  /** The text of one page holding `lines`. */
  function PageText(lines: seq<string>): string { "\n" + FrameAll(lines) }

  /** A grouping into pages of `k` lines is defined (and the loader ends) for k >= 1, or when there is nothing to group. */
  predicate Groupable(lines: seq<string>, k: int) { k >= 1 || lines == [] }

  /** The lines grouped into consecutive chunks of `k`, the last one possibly shorter. */
  function Chunks(lines: seq<string>, k: int): seq<seq<string>>
    requires Groupable(lines, k)
    decreases |lines|
  {
    if lines == [] then []
    else
      var n := Min(k, |lines|);
      [lines[..n]] + Chunks(lines[n..], k)
  }

  /** The page text of every chunk, in order. */
  function Render(cs: seq<seq<string>>): (ps: seq<string>)
    ensures |ps| == |cs|
    ensures forall i :: 0 <= i < |cs| ==> ps[i] == PageText(cs[i])
  {
    if cs == [] then [] else [PageText(cs[0])] + Render(cs[1..])
  }

  /** The pages the reader builds from `lines` with `k` lines per page. */
  function Pages(lines: seq<string>, k: int): seq<string>
    requires Groupable(lines, k)
  {
    Render(Chunks(lines, k))
  }

  /** The chunks joined back together. */
  function Flatten(cs: seq<seq<string>>): seq<string>
  {
    if cs == [] then [] else cs[0] + Flatten(cs[1..])
  }

  /** Lines as a line reader hands them out: none contains a line break. */
  predicate NoNewlines(lines: seq<string>)
  {
    forall i :: 0 <= i < |lines| ==> '\n' !in lines[i]
  }

  // ---------------------------------------------------------------------
  // Stripping the framing off again

  /** Splits `s` at its first line break, if it has one. */
  function SplitLine(s: string): (r: Option<(string, string)>)
    ensures r.None? <==> '\n' !in s
    ensures r.Some? ==> s == r.value.0 + "\n" + r.value.1 && '\n' !in r.value.0
  {
    if s == [] then None
    else if s[0] == '\n' then Some(([], s[1..]))
    else
      match SplitLine(s[1..])
      case None => None
      case Some((line, rest)) => Some(([s[0]] + line, rest))
  }

  /** Reads back the lines of a run of framed lines, or None if `s` is not one. */
  function UnframeLines(s: string): Option<seq<string>>
    decreases |s|
  {
    if s == [] then Some([])
    else if |s| < |Indent| || s[..|Indent|] != Indent then None
    else
      match SplitLine(s[|Indent|..])
      case None => None
      case Some((line, rest)) =>
        match UnframeLines(rest)
        case None => None
        case Some(more) => Some([line] + more)
  }

  /** Reads back the lines shown on one page, or None if `p` is not a page. */
  function UnframePage(p: string): Option<seq<string>>
  {
    if |p| >= 1 && p[0] == '\n' then UnframeLines(p[1..]) else None
  }

  /** Reads back the lines of a sequence of pages, in order. */
  function UnframeAll(ps: seq<string>): Option<seq<string>>
  {
    if ps == [] then Some([])
    else
      match UnframePage(ps[0])
      case None => None
      case Some(first) =>
        match UnframeAll(ps[1..])
        case None => None
        case Some(rest) => Some(first + rest)
  }

  // ---------------------------------------------------------------------
  // Shape of the grouping

  /** Taking the first chunk off: what the loader's inner loop does once. */
  lemma PagesUnfold(lines: seq<string>, k: int)
    requires k >= 1 && lines != []
    ensures Pages(lines, k) == [PageText(lines[..Min(k, |lines|)])] + Pages(lines[Min(k, |lines|)..], k)
  {
    var n := Min(k, |lines|);
    var cs := Chunks(lines, k);
    assert cs == [lines[..n]] + Chunks(lines[n..], k);
    assert cs[1..] == Chunks(lines[n..], k);
  }

  /** The chunks, joined, are the input lines: nothing is lost, repeated or reordered. */
  lemma {:induction false} ChunksFlatten(lines: seq<string>, k: int)
    requires Groupable(lines, k)
    ensures Flatten(Chunks(lines, k)) == lines
    decreases |lines|
  {
    if lines != [] {
      var n := Min(k, |lines|);
      var cs := Chunks(lines, k);
      assert cs[1..] == Chunks(lines[n..], k);
      ChunksFlatten(lines[n..], k);
      assert lines[..n] + lines[n..] == lines;
    }
  }

  lemma {:induction false} MulAtLeast(d: int, k: int)
    requires d >= 1 && k >= 1
    ensures d * k >= k
    decreases d
  {
    if d > 1 {
      MulAtLeast(d - 1, k);
      assert d * k == (d - 1) * k + k;
    }
  }

  /** Quotient and remainder are determined by n == q * k + r with 0 <= r < k. */
  lemma DivUnique(n: int, k: int, q: int, r: int)
    requires k >= 1 && 0 <= r < k && n == q * k + r
    ensures n / k == q && n % k == r
  {
    var d := n / k - q;
    var m := n % k;
    assert n == (n / k) * k + m;
    assert d * k == (n / k) * k - q * k;
    assert d * k == r - m;
    if d >= 1 { MulAtLeast(d, k); }
    else if d <= -1 { MulAtLeast(-d, k); }
  }

  lemma CeilOne(n: int, k: int)
    requires 1 <= n <= k
    ensures (n + k - 1) / k == 1
  {
    DivUnique(n + k - 1, k, 1, n - 1);
  }

  lemma CeilStep(n: int, k: int)
    requires n > k >= 1
    ensures (n + k - 1) / k == (n - k + k - 1) / k + 1
  {
    var q, r := (n - 1) / k, (n - 1) % k;
    assert n - 1 == q * k + r;
    assert (q + 1) * k == q * k + k;
    DivUnique(n + k - 1, k, q + 1, r);
  }

  lemma ModStep(n: int, k: int)
    requires n > k >= 1
    ensures n % k == (n - k) % k
  {
    var q, r := (n - k) / k, (n - k) % k;
    assert n - k == q * k + r;
    assert (q + 1) * k == q * k + k;
    DivUnique(n, k, q + 1, r);
  }

  lemma ModSmall(n: int, k: int)
    requires 1 <= n <= k
    ensures n % k == if n == k then 0 else n
  {
    if n == k { DivUnique(n, k, 1, 0); } else { DivUnique(n, k, 0, n); }
  }

  /** The number of chunks is the number of lines divided by `k`, rounded up. */
  lemma {:induction false} ChunksCount(lines: seq<string>, k: int)
    requires k >= 1
    ensures |Chunks(lines, k)| == (|lines| + k - 1) / k
    decreases |lines|
  {
    var n := Min(k, |lines|);
    if lines == [] {
    } else if n == |lines| {
      assert Chunks(lines[n..], k) == [];
      CeilOne(|lines|, k);
    } else {
      ChunksCount(lines[n..], k);
      CeilStep(|lines|, k);
    }
  }

  /** Every chunk holds exactly `k` lines except the last, which holds from 1 to `k`. */
  lemma {:induction false} ChunksSizes(lines: seq<string>, k: int)
    requires k >= 1
    ensures forall i :: 0 <= i < |Chunks(lines, k)| ==> 1 <= |Chunks(lines, k)[i]| <= k
    ensures forall i :: 0 <= i < |Chunks(lines, k)| - 1 ==> |Chunks(lines, k)[i]| == k
    decreases |lines|
  {
    if lines != [] {
      var n := Min(k, |lines|);
      var cs := Chunks(lines, k);
      ChunksSizes(lines[n..], k);
      assert cs[1..] == Chunks(lines[n..], k);
      forall i | 1 <= i < |cs| ensures 1 <= |cs[i]| <= k && (i < |cs| - 1 ==> |cs[i]| == k) {
        assert cs[i] == cs[1..][i - 1];
      }
      if |cs| > 1 {
        assert n < |lines|;
      }
    }
  }

  /** The last chunk holds |lines| mod k lines, or k of them when k divides |lines|. */
  lemma {:induction false} LastChunkSize(lines: seq<string>, k: int)
    requires k >= 1 && lines != []
    ensures |Chunks(lines, k)| >= 1
    ensures |Chunks(lines, k)[|Chunks(lines, k)| - 1]| == if |lines| % k == 0 then k else |lines| % k
    decreases |lines|
  {
    var n := Min(k, |lines|);
    var cs := Chunks(lines, k);
    if n == |lines| {
      assert Chunks(lines[n..], k) == [];
      ModSmall(|lines|, k);
    } else {
      LastChunkSize(lines[n..], k);
      assert cs[1..] == Chunks(lines[n..], k);
      assert cs[|cs| - 1] == cs[1..][|cs| - 2];
      ModStep(|lines|, k);
    }
  }

  /** Chunk `i` is the slice of lines from i*k up to (i+1)*k, cut at the end of the input. */
  lemma {:induction false} ChunkAt(lines: seq<string>, k: int, i: int)
    requires k >= 1 && 0 <= i < |Chunks(lines, k)|
    ensures i * k < |lines|
    ensures Chunks(lines, k)[i] == lines[i * k .. Min((i + 1) * k, |lines|)]
    decreases |lines|
  {
    var n := Min(k, |lines|);
    var cs := Chunks(lines, k);
    if i > 0 {
      var rest := lines[n..];
      assert cs[1..] == Chunks(rest, k);
      assert cs[i] == Chunks(rest, k)[i - 1];
      ChunkAt(rest, k, i - 1);
      assert rest != [];
      assert n == k;
      var lo, hi := (i - 1) * k, Min(i * k, |rest|);
      assert lo + k == i * k;
      assert hi + k == Min((i + 1) * k, |lines|) by {
        assert i * k + k == (i + 1) * k;
      }
      DropSlice(lines, k, lo, hi);
    }
  }

  lemma DropSlice(s: seq<string>, n: int, lo: int, hi: int)
    requires 0 <= n <= |s| && 0 <= lo <= hi <= |s| - n
    ensures s[n..][lo..hi] == s[n + lo .. n + hi]
  {
  }

  /** The number of pages is the ceiling of |lines| / k; no lines give no pages. */
  lemma PageCount(lines: seq<string>, k: int)
    requires Groupable(lines, k)
    ensures |Pages(lines, k)| == |Chunks(lines, k)|
    ensures k >= 1 ==> |Pages(lines, k)| == (|lines| + k - 1) / k
    ensures |Pages(lines, k)| == 0 <==> lines == []
  {
    if k >= 1 {
      ChunksCount(lines, k);
    }
    if lines != [] {
      assert |Chunks(lines, k)| >= 1;
    }
  }

  /** The lines from i*k up to (i+1)*k, cut at the end of the input: what page `i` should show. */
  function PageLines(lines: seq<string>, k: int, i: int): (r: seq<string>)
    requires k >= 1 && 0 <= i && i * k < |lines|
    ensures 1 <= |r| <= k
  {
    assert (i + 1) * k == i * k + k;
    lines[i * k .. Min((i + 1) * k, |lines|)]
  }

  /** Page `i` shows the lines from i*k up to (i+1)*k of the input. */
  lemma PageAt(lines: seq<string>, k: int, i: int)
    requires k >= 1 && 0 <= i < |Pages(lines, k)|
    ensures i * k < |lines|
    ensures Pages(lines, k)[i] == PageText(PageLines(lines, k, i))
  {
    ChunkAt(lines, k, i);
  }

  /** Reading back page `i` gives the lines from i*k up to (i+1)*k of the input. */
  lemma UnframePageAt(lines: seq<string>, k: int, i: int)
    requires k >= 1 && 0 <= i < |Pages(lines, k)|
    ensures i * k < |lines|
    ensures NoNewlines(lines) ==> UnframePage(Pages(lines, k)[i]) == Some(PageLines(lines, k, i))
  {
    PageAt(lines, k, i);
    if NoNewlines(lines) {
      ChunksNoNewlines(lines, k);
      ChunkAt(lines, k, i);
      UnframePageText(Chunks(lines, k)[i]);
    }
  }

  /** A file of 100 lines at 36 lines per page has three pages, the last holding 28 lines. */
  lemma HundredLinesAtThirtySix(lines: seq<string>)
    requires |lines| == 100
    ensures |Pages(lines, 36)| == 3
    ensures |Chunks(lines, 36)[2]| == 28
  {
    PageCount(lines, 36);
    LastChunkSize(lines, 36);
  }

  // ---------------------------------------------------------------------
  // Round trip

  lemma {:induction false} FrameAllCons(line: string, lines: seq<string>)
    ensures FrameAll([line] + lines) == FramedLine(line) + FrameAll(lines)
    decreases |lines|
  {
    if lines != [] {
      var all := [line] + lines;
      var init := lines[..|lines| - 1];
      assert all[..|all| - 1] == [line] + init;
      FrameAllCons(line, init);
    } else {
      assert [line][..0] == [];
    }
  }

  lemma {:induction false} SplitFramed(line: string, rest: string)
    requires '\n' !in line
    ensures SplitLine(line + "\n" + rest) == Some((line, rest))
    decreases |line|
  {
    var s := line + "\n" + rest;
    if line != [] {
      assert s[1..] == line[1..] + "\n" + rest;
      SplitFramed(line[1..], rest);
      assert [line[0]] + line[1..] == line;
    } else {
      assert s[1..] == rest;
    }
  }

  /** Reading back a run of framed lines gives the lines. */
  lemma {:induction false} UnframeFrameAll(lines: seq<string>)
    requires NoNewlines(lines)
    ensures UnframeLines(FrameAll(lines)) == Some(lines)
    decreases |lines|
  {
    if lines != [] {
      var line, more := lines[0], lines[1..];
      assert lines == [line] + more;
      FrameAllCons(line, more);
      var s := FrameAll(lines);
      var tail := FrameAll(more);
      assert s == Indent + (line + "\n" + tail);
      assert s[..|Indent|] == Indent;
      assert s[|Indent|..] == line + "\n" + tail;
      assert '\n' !in line by { assert line == lines[0]; }
      SplitFramed(line, tail);
      assert NoNewlines(more) by {
        forall i | 0 <= i < |more| ensures '\n' !in more[i] { assert more[i] == lines[i + 1]; }
      }
      UnframeFrameAll(more);
    } else {
      assert FrameAll(lines) == "";
    }
  }

  /** Reading back a page gives exactly the lines it was built from. */
  lemma UnframePageText(lines: seq<string>)
    requires NoNewlines(lines)
    ensures UnframePage(PageText(lines)) == Some(lines)
  {
    var p := PageText(lines);
    assert p[1..] == FrameAll(lines);
    UnframeFrameAll(lines);
  }

  lemma NoNewlinesSlice(lines: seq<string>, lo: int, hi: int)
    requires NoNewlines(lines) && 0 <= lo <= hi <= |lines|
    ensures NoNewlines(lines[lo..hi])
  {
    forall i | 0 <= i < hi - lo ensures '\n' !in lines[lo..hi][i] {
      assert lines[lo..hi][i] == lines[lo + i];
    }
  }

  lemma UnframeAllCons(p: string, ps: seq<string>, a: seq<string>, b: seq<string>)
    requires UnframePage(p) == Some(a) && UnframeAll(ps) == Some(b)
    ensures UnframeAll([p] + ps) == Some(a + b)
  {
    assert ([p] + ps)[1..] == ps;
  }

  /** Every chunk of lines without line breaks is itself free of line breaks. */
  lemma {:induction false} ChunksNoNewlines(lines: seq<string>, k: int)
    requires Groupable(lines, k) && NoNewlines(lines)
    ensures forall i :: 0 <= i < |Chunks(lines, k)| ==> NoNewlines(Chunks(lines, k)[i])
    decreases |lines|
  {
    if lines != [] {
      var n := Min(k, |lines|);
      var cs := Chunks(lines, k);
      NoNewlinesSlice(lines, 0, n);
      NoNewlinesSlice(lines, n, |lines|);
      ChunksNoNewlines(lines[n..], k);
      assert cs[1..] == Chunks(lines[n..], k);
      forall i | 1 <= i < |cs| ensures NoNewlines(cs[i]) {
        assert cs[i] == cs[1..][i - 1];
      }
    }
  }

  /** Reading back rendered chunks gives the chunks joined together. */
  lemma {:induction false} UnframeRender(cs: seq<seq<string>>)
    requires forall i :: 0 <= i < |cs| ==> NoNewlines(cs[i])
    ensures UnframeAll(Render(cs)) == Some(Flatten(cs))
    decreases |cs|
  {
    if cs != [] {
      UnframePageText(cs[0]);
      UnframeRender(cs[1..]);
      UnframeAllCons(PageText(cs[0]), Render(cs[1..]), cs[0], Flatten(cs[1..]));
    }
  }

  /** Stripping the framing from all pages in order gives back the original lines. */
  lemma PagesRoundTrip(lines: seq<string>, k: int)
    requires Groupable(lines, k) && NoNewlines(lines)
    ensures UnframeAll(Pages(lines, k)) == Some(lines)
  {
    ChunksNoNewlines(lines, k);
    UnframeRender(Chunks(lines, k));
    ChunksFlatten(lines, k);
  }

  /** Corollary: two line sequences that give the same pages are the same lines. */
  lemma PagesInjective(a: seq<string>, b: seq<string>, k: int)
    requires Groupable(a, k) && Groupable(b, k) && NoNewlines(a) && NoNewlines(b)
    requires Pages(a, k) == Pages(b, k)
    ensures a == b
  {
    PagesRoundTrip(a, k);
    PagesRoundTrip(b, k);
  }
}
