/** Address extraction from one agenda PDF (main.py, extract_addresses_from_pdf):
    each page's text is split at "New Business" / "Old Business", and only the
    sections after the first delimiter are scanned for addresses. */
module AgendaPages {
  import opened Common

  /** What reading one page gives. `NoText` is `extract_text()` returning
      `None`; `ReadError` is an exception while opening or reading the PDF,
      which ends the scan (a PDF that cannot be opened is `[ReadError]`). */
  datatype PageRead = PageText(text: string) | NoText | ReadError

  /** Both delimiters are twelve characters long. */
  const DelimiterLength: nat := 12

  function LowerAsciiChar(c: char): char {
    if 'A' <= c <= 'Z' then (c as int + 32) as char else c
  }

  /** `s` with its ASCII capitals lowered. */
  function LowerAscii(s: string): (r: string)
    ensures |r| == |s|
  {
    seq(|s|, i requires 0 <= i < |s| => LowerAsciiChar(s[i]))
  }

  /** The pattern `New Business|Old Business` under IGNORECASE. */
  predicate IsDelimiter(s: string) {
    LowerAscii(s) == "new business" || LowerAscii(s) == "old business"
  }

  /** A delimiter starts at index `i` of `s`. */
  predicate DelimiterAt(s: string, i: int) {
    0 <= i && i + DelimiterLength <= |s| && IsDelimiter(s[i..i + DelimiterLength])
  }

  /** `re.split`: scan left to right, cut at each delimiter, drop it, and
      resume after it. The first piece is the text before the first delimiter. */
  function Split(s: string): (pieces: seq<string>)
    ensures |pieces| >= 1
    ensures pieces[0] <= s
    decreases |s|
  {
    if |s| < DelimiterLength then [s]
    else if IsDelimiter(s[..DelimiterLength]) then [""] + Split(s[DelimiterLength..])
    else
      var rest := Split(s[1..]);
      [[s[0]] + rest[0]] + rest[1..]
  }

  /** The first piece ends at the first delimiter: none starts inside it. */
  lemma {:induction false} FirstPieceHasNoDelimiter(s: string)
    ensures forall i :: 0 <= i < |Split(s)[0]| ==> !DelimiterAt(s, i)
    decreases |s|
  {
    if |s| >= DelimiterLength && !IsDelimiter(s[..DelimiterLength]) {
      var rest := Split(s[1..]);
      FirstPieceHasNoDelimiter(s[1..]);
      forall i | 0 <= i <= |rest[0]|
        ensures !DelimiterAt(s, i)
      {
        if i > 0 {
          ShiftedDelimiter(s, i - 1);
        } else {
          assert s[0..DelimiterLength] == s[..DelimiterLength];
        }
      }
    }
  }

  lemma ShiftedDelimiter(s: string, i: int)
    requires |s| >= 1 && 0 <= i
    ensures DelimiterAt(s[1..], i) <==> DelimiterAt(s, i + 1)
  {
    if 0 <= i && i + 1 + DelimiterLength <= |s| {
      assert s[1..][i..i + DelimiterLength] == s[i + 1..i + 1 + DelimiterLength];
    }
  }

  /** Text before the first delimiter is the first piece, whatever it holds;
      splitting resumes right after the delimiter. */
  lemma {:induction false} SplitAtFirstDelimiter(p: string, d: string, r: string)
    requires IsDelimiter(d)
    requires forall i :: 0 <= i < |p| ==> !DelimiterAt(p + d + r, i)
    ensures Split(p + d + r) == [p] + Split(r)
  {
    var s := p + d + r;
    if p == [] {
      assert s[..DelimiterLength] == d;
      assert s[DelimiterLength..] == r;
    } else {
      assert !DelimiterAt(s, 0);
      assert s[1..] == p[1..] + d + r;
      forall i | 0 <= i < |p| - 1
        ensures !DelimiterAt(p[1..] + d + r, i)
      {
        ShiftedDelimiter(s, i);
      }
      SplitAtFirstDelimiter(p[1..], d, r);
      assert [p[0]] + p[1..] == p;
    }
  }

  /** A text without any delimiter is one piece: itself. */
  lemma {:induction false} SplitWithoutDelimiter(s: string)
    requires forall i :: !DelimiterAt(s, i)
    ensures Split(s) == [s]
  {
    if |s| >= DelimiterLength {
      assert !DelimiterAt(s, 0);
      forall i | 0 <= i
        ensures !DelimiterAt(s[1..], i)
      {
        ShiftedDelimiter(s, i);
      }
      SplitWithoutDelimiter(s[1..]);
      assert [s[0]] + s[1..] == s;
    }
  }

  /** The addresses of a page's sections, section by section, in match order. */
  function SectionAddresses(sections: seq<string>, extract: Extractor): seq<string> {
    if sections == [] then []
    else SectionAddresses(sections[..|sections| - 1], extract) + extract(sections[|sections| - 1])
  }

  /** What one page contributes: nothing for a page with no or empty text;
      otherwise the matches in every section after the first delimiter. */
  function PageAddresses(page: PageRead, extract: Extractor): seq<string> {
    match page
    case PageText(text) => if text == "" then [] else SectionAddresses(Split(text)[1..], extract)
    case NoText => []
    case ReadError => []
  }

  /** No page of `pages` failed to read. */
  predicate AllRead(pages: seq<PageRead>) {
    forall k :: 0 <= k < |pages| ==> !pages[k].ReadError?
  }

  /** The pages read before the first read error. */
  function Readable(pages: seq<PageRead>): (r: seq<PageRead>)
    ensures r <= pages && AllRead(r)
    ensures |r| == |pages| || pages[|r|].ReadError?
  {
    if pages == [] || pages[0].ReadError? then [] else [pages[0]] + Readable(pages[1..])
  }

  /** The addresses of a run of pages, in page order, duplicates kept. */
  function Collect(pages: seq<PageRead>, extract: Extractor): seq<string> {
    if pages == [] then []
    else Collect(pages[..|pages| - 1], extract) + PageAddresses(pages[|pages| - 1], extract)
  }

  /** What `extract_addresses_from_pdf` returns: the addresses of the pages
      read before the first error (the `except` returns the partial list). */
  function DocumentAddresses(pages: seq<PageRead>, extract: Extractor): seq<string> {
    Collect(Readable(pages), extract)
  }

  /** `extract_addresses_from_pdf`, with the page texts given. The page loop
      runs until the pages are exhausted or a page fails to read; the failure
      is caught outside the loop, so the addresses found so far are returned. */
  method ExtractAddressesFromPdf(pages: seq<PageRead>, extract: Extractor) returns (addresses: seq<string>)
    ensures addresses == DocumentAddresses(pages, extract)
  {
    addresses := [];
    var i := 0;
    while i < |pages| && !pages[i].ReadError?
      invariant Scanned(pages, i, addresses, extract)
    {
      var extended := ScanPage(addresses, pages[i], extract);
      ScanStep(pages, i, addresses, extended, extract);
      addresses, i := extended, i + 1;
    }
    ScannedUpTo(pages, i, addresses, extract);
  }

  /** The loop has read the first `i` pages without error and holds their
      addresses. */
  ghost predicate Scanned(pages: seq<PageRead>, i: int, addresses: seq<string>, extract: Extractor) {
    0 <= i <= |pages| && AllRead(pages[..i]) && addresses == Collect(pages[..i], extract)
  }

  /** One page read without error moves the loop on by one page. */
  lemma ScanStep(pages: seq<PageRead>, i: int, addresses: seq<string>, extended: seq<string>, extract: Extractor)
    requires Scanned(pages, i, addresses, extract) && i < |pages| && !pages[i].ReadError?
    requires extended == addresses + PageAddresses(pages[i], extract)
    ensures Scanned(pages, i + 1, extended, extract)
  {
    var read := pages[..i + 1];
    assert read[..i] == pages[..i] && read[i] == pages[i];
    assert Collect(read, extract) == Collect(pages[..i], extract) + PageAddresses(pages[i], extract);
    assert forall k :: 0 <= k < i + 1 ==> !read[k].ReadError? by {
      forall k | 0 <= k < i + 1
        ensures !read[k].ReadError?
      {
        if k < i { assert read[k] == pages[..i][k]; }
      }
    }
  }

  /** Stopping at page `i`, because it failed or because there are no more
      pages, leaves exactly the document's addresses. */
  lemma ScannedUpTo(pages: seq<PageRead>, i: int, addresses: seq<string>, extract: Extractor)
    requires Scanned(pages, i, addresses, extract)
    requires i == |pages| || pages[i].ReadError?
    ensures addresses == DocumentAddresses(pages, extract)
  {
    ReadableUpToError(pages, i);
  }

  /** The body of the page loop for a page that was read: when it has text,
      split it at the delimiters and extend with every later section's
      matches; otherwise leave the list as it is. */
  method ScanPage(addresses: seq<string>, page: PageRead, extract: Extractor) returns (extended: seq<string>)
    requires !page.ReadError?
    ensures extended == addresses + PageAddresses(page, extract)
  {
    if page.PageText? && page.text != "" {
      var businessText := Split(page.text);
      extended := ExtendFromSections(addresses, businessText, extract);
    } else {
      extended := addresses;
      assert addresses + [] == addresses;
    }
  }

  /** The inner loop of one page: `addresses.extend(re.findall(...))` for
      every section after the first delimiter, in order. */
  method ExtendFromSections(addresses: seq<string>, businessText: seq<string>, extract: Extractor)
    returns (extended: seq<string>)
    requires |businessText| >= 1
    ensures extended == addresses + SectionAddresses(businessText[1..], extract)
  {
    extended := addresses;
    var j := 1;
    while j < |businessText|
      invariant 1 <= j <= |businessText|
      invariant extended == addresses + SectionAddresses(businessText[1..j], extract)
    {
      SectionStep(businessText, j, extract);
      assert (addresses + SectionAddresses(businessText[1..j], extract)) + extract(businessText[j])
          == addresses + (SectionAddresses(businessText[1..j], extract) + extract(businessText[j]));
      extended := extended + extract(businessText[j]);
      j := j + 1;
    }
    assert businessText[1..j] == businessText[1..];
  }

  /** One more section appends that section's matches. */
  lemma SectionStep(sections: seq<string>, j: nat, extract: Extractor)
    requires 1 <= j < |sections|
    ensures SectionAddresses(sections[1..j + 1], extract) == SectionAddresses(sections[1..j], extract) + extract(sections[j])
  {
    assert sections[1..j + 1][..j - 1] == sections[1..j];
  }

  /** When no error occurs before index `i` and an error (or the end) is at
      `i`, the readable pages are exactly the first `i`. */
  lemma {:induction false} ReadableUpToError(pages: seq<PageRead>, i: nat)
    requires i <= |pages| && AllRead(pages[..i])
    requires i == |pages| || pages[i].ReadError?
    ensures Readable(pages) == pages[..i]
  {
    if i > 0 {
      assert pages[1..][..i - 1] == pages[..i][1..];
      ReadableUpToError(pages[1..], i - 1);
      assert [pages[0]] + pages[1..][..i - 1] == pages[..i];
    }
  }

  /** Pages are accumulated in page order and nothing is deduplicated. */
  lemma {:induction false} CollectAppend(pages: seq<PageRead>, more: seq<PageRead>, extract: Extractor)
    ensures Collect(pages + more, extract) == Collect(pages, extract) + Collect(more, extract)
  {
    if more != [] {
      var m := more[..|more| - 1];
      assert (pages + more)[..|pages + more| - 1] == pages + m;
      CollectAppend(pages, m, extract);
    } else {
      assert pages + more == pages;
    }
  }

  /** A page without text, or with empty text, yields no address. */
  lemma BlankPageHasNoAddresses(blank: PageRead, extract: Extractor)
    requires blank.NoText? || (blank.PageText? && blank.text == "")
    ensures PageAddresses(blank, extract) == []
  {
  }

  /** A page that yields nothing is skipped: removing it changes nothing. */
  lemma PageWithoutAddressesSkipped(before: seq<PageRead>, page: PageRead, after: seq<PageRead>, extract: Extractor)
    requires PageAddresses(page, extract) == []
    ensures Collect(before + [page] + after, extract) == Collect(before + after, extract)
  {
    assert Collect([page], extract) == [] by {
      assert [page][..0] == [];
    }
    CollectAppend(before + [page], after, extract);
    CollectAppend(before, [page], extract);
    CollectAppend(before, after, extract);
  }

  /** A read error ends the scan: later pages contribute nothing, and the
      addresses already found are kept. */
  lemma ReadErrorKeepsEarlierPages(before: seq<PageRead>, after: seq<PageRead>, extract: Extractor)
    requires AllRead(before)
    ensures DocumentAddresses(before + [ReadError] + after, extract) == Collect(before, extract)
  {
    var pages := before + [ReadError] + after;
    assert pages[..|before|] == before;
    assert forall k :: 0 <= k < |before| ==> pages[k] == before[k];
    ReadableUpToError(pages, |before|);
  }

  /** Text before the first delimiter contributes nothing: the page yields the
      addresses of the pieces after that delimiter, whatever precedes it. */
  lemma TextBeforeDelimiterIgnored(p: string, d: string, r: string, extract: Extractor)
    requires IsDelimiter(d)
    requires forall i :: 0 <= i < |p| ==> !DelimiterAt(p + d + r, i)
    ensures PageAddresses(PageText(p + d + r), extract) == SectionAddresses(Split(r), extract)
  {
    SplitAtFirstDelimiter(p, d, r);
    assert ([p] + Split(r))[1..] == Split(r);
  }

  /** A page with no delimiter contributes no address at all. */
  lemma NoDelimiterNoAddresses(text: string, extract: Extractor)
    requires forall i :: !DelimiterAt(text, i)
    ensures PageAddresses(PageText(text), extract) == []
  {
    SplitWithoutDelimiter(text);
  }
}
