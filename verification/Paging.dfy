/** Reading a stored result page by page. */
module Paging {
  import opened Basics
  import opened Utf8
  import ChunkedRange

  datatype PageError = InvalidPageSize | InvalidOffset | SizeUnknown | ResultExpired | ResultCorrupt | Unauthorized
  datatype Page = Page(offset: nat, content: seq<byte>, nextOffset: nat, complete: bool, resultBytes: nat)
  datatype PageResult = Got(page: Page) | Failed(error: PageError)

  const UTF_MAX := 4

  // ----- The longest whole characters within a limit -----

  /** The end of the longest valid text that starts at `offset` and ends by `end`. */
  function PageEnd(body: seq<byte>, offset: nat, end: nat): (r: nat)
    requires offset <= end <= |body|
    ensures offset <= r <= end && Valid(body[offset..r])
    ensures forall e | r < e <= end :: !Valid(body[offset..e])
    decreases end
  {
    if end == offset then assert body[offset..end] == []; end
    else if Valid(body[offset..end]) then end
    else PageEnd(body, offset, end - 1)
  }

  /** A limit that holds any character leaves no page of a valid text empty. */
  lemma PageIsNotEmpty(body: seq<byte>, offset: nat, end: nat)
    requires offset < end <= |body| && Valid(body[offset..]) && (end == |body| || end - offset >= UTF_MAX)
    ensures PageEnd(body, offset, end) > offset
  {
    var n := CharLength(body[offset..]);
    CharAlone(body[offset..]);
    assert body[offset..][..n] == body[offset..offset + n];
    assert Valid(body[offset..offset + n]);
  }

  function Limit(requestedBytes: int, maximumBytes: int): int {
    if requestedBytes <= 0 || requestedBytes > maximumBytes then maximumBytes else requestedBytes
  }

  /** A slice of the body in whole characters: its bytes from the offset on, at least one
      unless the body is at its end, and complete exactly when it reaches the end. */
  predicate IsSlice(body: seq<byte>, page: Page) {
    page.offset <= page.nextOffset <= |body| && page.content == body[page.offset..page.nextOffset] &&
    page.resultBytes == |body| && (page.complete <==> page.nextOffset == |body|) &&
    (page.nextOffset == page.offset ==> page.offset == |body|) && Valid(page.content)
  }

  /** A page ends at a character, from which the rest can be read. */
  predicate IsPage(body: seq<byte>, page: Page) {
    IsSlice(body, page) && Valid(body[page.nextOffset..])
  }

  /** Pages fail only for a limit too small for some character or an offset that
      is not at one; the error for an empty page never occurs. */
  method PageCompactedToolResult(body: seq<byte>, offset: int, requestedBytes: int, maximumBytes: int)
    returns (r: PageResult)
    ensures r.Failed? ==> r.error.InvalidPageSize? || r.error.InvalidOffset?
    ensures r == Failed(InvalidPageSize) <==> Limit(requestedBytes, maximumBytes) < UTF_MAX || maximumBytes < UTF_MAX
    ensures r == Failed(InvalidOffset) <==>
      Limit(requestedBytes, maximumBytes) >= UTF_MAX && maximumBytes >= UTF_MAX &&
      (offset < 0 || offset > |body| || !Valid(body[offset..]))
    ensures r.Got? ==>
      IsPage(body, r.page) && r.page.offset == offset && |r.page.content| <= Limit(requestedBytes, maximumBytes)
    ensures r.Got? ==>
      r.page.nextOffset == PageEnd(body, offset, Min(offset + Limit(requestedBytes, maximumBytes), |body|))
  {
    hide Valid;
    var pageLimit := requestedBytes;
    if pageLimit <= 0 || pageLimit > maximumBytes {
      pageLimit := maximumBytes;
    }
    if pageLimit < UTF_MAX || maximumBytes < UTF_MAX {
      return Failed(InvalidPageSize);
    }
    if offset < 0 || offset > |body| || !Valid(body[offset..]) {
      return Failed(InvalidOffset);
    }
    var end := offset + pageLimit;
    if end > |body| {
      end := |body|;
    }
    ghost var first := end;
    while end > offset && !Valid(body[offset..end])
      invariant offset <= end <= first
      invariant PageEnd(body, offset, end) == PageEnd(body, offset, first)
    {
      end := end - 1;
    }
    assert PageEnd(body, offset, end) == end;
    if first > offset {
      PageIsNotEmpty(body, offset, first);
    }
    if end == offset && offset < |body| {
      assert false;
      return Failed(InvalidPageSize);
    }
    RestIsValid(body, offset, end);
    return Got(Page(offset, body[offset..end], end, end == |body|, |body|));
  }

  lemma RestIsValid(body: seq<byte>, offset: nat, end: nat)
    requires offset <= end <= |body| && Valid(body[offset..end]) && Valid(body[offset..])
    ensures Valid(body[end..])
  {
    hide Valid;
    ValidInTwoParts(body[offset..end], body[end..]);
    assert body[offset..] == body[offset..end] + body[end..];
  }

  /** The page cut from a fetched range, up to three bytes longer than the page, is
      the page cut from the whole body. */
  method PageFromRange(ghost body: seq<byte>, resultBytes: int, offset: nat, pageLimit: int, ranged: seq<byte>)
    returns (r: PageResult)
    requires offset <= |body| == resultBytes && pageLimit >= UTF_MAX
    requires ranged == body[offset..Min(offset + pageLimit + UTF_MAX - 1, |body|)]
    ensures r.Got? ==>
      r.page.offset == offset && r.page.nextOffset == PageEnd(body, offset, Min(offset + pageLimit, |body|))
    ensures r.Got? ==>
      r.page.content == body[offset..r.page.nextOffset] && r.page.complete == (r.page.nextOffset == |body|)
    ensures r.Got? ==> IsSlice(body, r.page)
    ensures r.Failed? ==> r.error.InvalidOffset?
    ensures Valid(body[offset..]) ==> r.Got? && IsPage(body, r.page)
  {
    hide Valid;
    var end := pageLimit;
    if end > |ranged| {
      end := |ranged|;
    }
    ghost var first := offset + end;
    assert first == Min(offset + pageLimit, |body|);
    while end > 0 && !Valid(ranged[..end])
      invariant 0 <= end && offset + end <= first
      invariant PageEnd(body, offset, offset + end) == PageEnd(body, offset, first)
    {
      assert ranged[..end] == body[offset..offset + end];
      end := end - 1;
    }
    assert ranged[..end] == body[offset..offset + end];
    assert PageEnd(body, offset, offset + end) == offset + end;
    if Valid(body[offset..]) {
      if first > offset {
        PageIsNotEmpty(body, offset, first);
      }
      RestIsValid(body, offset, offset + end);
    }
    if end == 0 && offset < resultBytes {
      return Failed(InvalidOffset);
    }
    return Got(Page(offset, ranged[..end], offset + end, offset + end == resultBytes, resultBytes));
  }

  /** The page holds the longest whole characters of the body from the offset on. */
  predicate IsCutAt(body: seq<byte>, page: Page, offset: int, limit: int) {
    0 <= offset <= |body| && limit >= UTF_MAX && page.offset == offset &&
    page.nextOffset == PageEnd(body, offset, Min(offset + limit, |body|)) &&
    page.content == body[offset..page.nextOffset] && (page.complete <==> page.nextOffset == |body|)
  }

  /** One read of an externalized result: a chunk-verified range, three bytes longer
      than the page, cut at a character. What comes back is the page of the body that
      was put, for the Run it belongs to and in its time, whatever the store holds by
      now; an untouched body is never refused. */
  method ReadExternalizedPage(
    store: ChunkedRange.ToolResultStore, scope: ChunkedRange.Scope, resultRef: string, offset: int, requestedBytes: int,
    maximumBytes: int, now: int, stillThere: bool)
    returns (r: PageResult)
    requires store.Valid()
    ensures r.Got? ==> resultRef in store.metadata && MayRead(store.put[resultRef].header, scope, now)
    ensures r.Got? ==>
      var body := store.put[resultRef].body;
      IsCutAt(body, r.page, offset, Limit(requestedBytes, maximumBytes)) && IsSlice(body, r.page) &&
      (Valid(body) ==> IsPage(body, r.page) && Valid(body[offset..]))
    ensures (Readable(store, scope, resultRef, offset, now) && stillThere &&
      Limit(requestedBytes, maximumBytes) >= UTF_MAX &&
      maximumBytes >= UTF_MAX) ==>
      (r.Got? && IsPage(store.put[resultRef].body, r.page))
    ensures r == Failed(Unauthorized) ==>
      resultRef in store.metadata && store.put[resultRef].header.scope != scope &&
      now < store.put[resultRef].header.expiresAt
  {
    hide Valid, PageEnd;
    if !("tr_" <= resultRef) {
      return Failed(ResultExpired);
    }
    var pageLimit := Limit(requestedBytes, maximumBytes);
    if pageLimit < UTF_MAX || maximumBytes < UTF_MAX {
      return Failed(InvalidPageSize);
    }
    var range := store.ReadRange(resultRef, offset, pageLimit + UTF_MAX - 1, stillThere);
    match range {
      case Expired => return Failed(ResultExpired);
      case Corrupt => return Failed(ResultCorrupt);
      case InvalidOffset => return Failed(InvalidOffset);
      case Bytes(header, ranged) =>
        if now >= header.expiresAt {
          return Failed(ResultExpired);
        }
        if header.scope != scope {
          return Failed(Unauthorized);
        }
        ghost var body := store.put[resultRef].body;
        if |ranged| < Min(pageLimit, header.resultBytes - offset) {
          assert false;
          return Failed(ResultCorrupt);
        }
        r := PageFromRange(body, header.resultBytes, offset, pageLimit, ranged);
        if r.Got? {
          SliceOfValid(body, r.page);
        }
    }
  }

  predicate MayRead(header: ChunkedRange.Header, scope: ChunkedRange.Scope, now: int) {
    header.scope == scope && now < header.expiresAt
  }

  /** What was put is still there, may be read, and can be read from the offset on. */
  ghost predicate Readable(
    store: ChunkedRange.ToolResultStore, scope: ChunkedRange.Scope, resultRef: string, offset: int, now: int)
    reads store
  {
    "tr_" <= resultRef && store.Untouched(resultRef) && MayRead(store.put[resultRef].header, scope, now) &&
    0 <= offset <= |store.put[resultRef].body| && Valid(store.put[resultRef].body[offset..])
  }

  /** In a valid text whatever can be read as a slice is a page. */
  lemma SliceOfValid(body: seq<byte>, page: Page)
    requires IsSlice(body, page)
    ensures Valid(body) ==> IsPage(body, page) && Valid(body[page.offset..])
  {
    if Valid(body) {
      if page.offset < page.nextOffset {
        ReadableFrom(body, page.offset, page.nextOffset);
      }
      RestIsValid(body, page.offset, page.nextOffset);
    }
  }

  // ----- Fitting the encoded page into the output limit -----

  /** The page with only its first characters. */
  function Shortened(page: Page, chars: seq<seq<byte>>, k: nat): Page
    requires k <= |chars|
  {
    var content := Join(chars[..k]);
    page.(content := content, nextOffset := page.offset + |content|, complete := page.complete && k == |chars|)
  }

  ghost predicate IsShortened(page: Page, shorter: Page)
    requires Valid(page.content)
  {
    exists k :: 0 < k <= |Chars(page.content)| && shorter == Shortened(page, Chars(page.content), k)
  }

  predicate Fits(visible: Page -> Option<nat>, page: Page, limit: int) {
    visible(page).Some? && visible(page).value <= limit
  }

  /** A shortened page fits, and with one character more it would not. */
  ghost predicate IsLongestFit(visible: Page -> Option<nat>, page: Page, shorter: Page, limit: int)
    requires Valid(page.content)
  {
    exists k :: 0 < k <= |Chars(page.content)| && shorter == Shortened(page, Chars(page.content), k) &&
      (k < |Chars(page.content)| ==> !Fits(visible, Shortened(page, Chars(page.content), k + 1), limit))
  }

  /** Its size cannot be told, or not even its first character fits. */
  ghost predicate CannotBeShown(visible: Page -> Option<nat>, page: Page, limit: int)
    requires Valid(page.content)
  {
    visible(page).None? || visible(Shortened(page, Chars(page.content), 0)).None? || Chars(page.content) == [] ||
    !Fits(visible, Shortened(page, Chars(page.content), 1), limit)
  }

  /** Binary search for as many characters as the visible size allows. `visible` is
      the size of the encoded page, if it can be told; nothing is assumed about
      how it grows. The page that comes back cannot have one character more, and the
      search fails only if not even one character fits, or if the size of the page
      cannot be told. */
  method MarshalBoundedToolResultPage(visible: Page -> Option<nat>, page: Page, maximumOutputBytes: int)
    returns (r: PageResult)
    requires Valid(page.content)
    ensures r.Got? && maximumOutputBytes > 0 ==> visible(r.page).Some? && visible(r.page).value <= maximumOutputBytes
    ensures r.Got? ==> r.page == page || IsShortened(page, r.page)
    ensures maximumOutputBytes <= 0 || (visible(page).Some? && visible(page).value <= maximumOutputBytes) ==>
      r == Got(page)
    ensures r.Got? && r.page != page ==> IsLongestFit(visible, page, r.page, maximumOutputBytes)
    ensures r.Failed? ==>
      CannotBeShown(visible, page, maximumOutputBytes) && (r.error.InvalidPageSize? || r.error.SizeUnknown?)
  {
    hide Valid, Shortened;
    if maximumOutputBytes <= 0 {
      return Got(page);
    }
    var size := visible(page);
    if size.None? {
      return Failed(SizeUnknown);
    }
    if size.value <= maximumOutputBytes {
      return Got(page);
    }
    var runes := Chars(page.content);
    var low, high := 0, |runes|;
    while low < high
      invariant 0 <= low <= high <= |runes|
      invariant low > 0 ==> Fits(visible, Shortened(page, runes, low), maximumOutputBytes)
      invariant high < |runes| ==> !Fits(visible, Shortened(page, runes, high + 1), maximumOutputBytes)
      decreases high - low
    {
      var middle := (low + high + 1) / 2;
      var candidate := visible(Shortened(page, runes, middle));
      if candidate.Some? && candidate.value <= maximumOutputBytes {
        low := middle;
      } else {
        high := middle - 1;
      }
    }
    var bounded := Shortened(page, runes, low);
    size := visible(bounded);
    if size.None? {
      return Failed(SizeUnknown);
    }
    if low == 0 || size.value > maximumOutputBytes {
      return Failed(InvalidPageSize);
    }
    return Got(bounded);
  }

  /** Shortening a slice of the body gives a slice of the body, and a page a page. */
  lemma ShortenedIsSlice(body: seq<byte>, page: Page, k: nat)
    requires IsSlice(body, page) && 0 < k <= |Chars(page.content)|
    ensures var shorter := Shortened(page, Chars(page.content), k);
      IsSlice(body, shorter) && (IsPage(body, page) ==> IsPage(body, shorter)) && |shorter.content| <= |page.content|
  {
    hide Chars, Join, Valid;
    FirstChars(page.content, k);
    var front := Join(Chars(page.content)[..k]);
    var next := page.offset + |front|;
    assert body[page.offset..next] == page.content[..|front|] == front;
    ValidInTwoParts(page.content[|front|..], body[page.nextOffset..]);
    assert body[next..] == page.content[|front|..] + body[page.nextOffset..];
  }

  ghost predicate IsPageAt(body: seq<byte>, page: Page, offset: int) {
    IsPage(body, page) && page.offset == offset
  }

  /** One call of the tool on a compacted result. */
  method ReadPage(
    visible: Page -> Option<nat>, body: seq<byte>, offset: int, requestedBytes: int, maximumBytes: int,
    maximumOutputBytes: int)
    returns (r: PageResult)
    ensures r.Got? ==>
      IsPage(body, r.page) && r.page.offset == offset && |r.page.content| <= Limit(requestedBytes, maximumBytes)
    ensures r.Got? && maximumOutputBytes > 0 ==> visible(r.page).Some? && visible(r.page).value <= maximumOutputBytes
    ensures r.Failed? ==>
      Limit(requestedBytes, maximumBytes) < UTF_MAX || maximumBytes < UTF_MAX || offset < 0 || offset > |body| ||
      !Valid(body[offset..]) ||
      (maximumOutputBytes > 0 && exists page ::
        IsPageAt(body, page, offset) && CannotBeShown(visible, page, maximumOutputBytes))
  {
    hide Valid, Chars, Join, Shortened;
    r := PageCompactedToolResult(body, offset, requestedBytes, maximumBytes);
    if r.Got? {
      var page := r.page;
      r := MarshalBoundedToolResultPage(visible, page, maximumOutputBytes);
      if r.Got? {
        BoundedIsSlice(body, page, r.page);
      }
    }
  }

  lemma BoundedIsSlice(body: seq<byte>, page: Page, bounded: Page)
    requires IsSlice(body, page) && (bounded == page || IsShortened(page, bounded))
    ensures IsSlice(body, bounded) && (IsPage(body, page) ==> IsPage(body, bounded))
    ensures bounded.offset == page.offset && |bounded.content| <= |page.content|
  {
    hide Valid, Chars, Join;
    if bounded != page {
      var k :| 0 < k <= |Chars(page.content)| && bounded == Shortened(page, Chars(page.content), k);
      ShortenedIsSlice(body, page, k);
    }
  }

  /** One call of the tool on an externalized result. */
  method ReadExternalizedResult(
    visible: Page -> Option<nat>, store: ChunkedRange.ToolResultStore, scope: ChunkedRange.Scope, resultRef: string,
    offset: int, requestedBytes: int, maximumBytes: int, maximumOutputBytes: int, now: int, stillThere: bool)
    returns (r: PageResult)
    requires store.Valid()
    ensures r.Got? ==> resultRef in store.metadata && MayRead(store.put[resultRef].header, scope, now)
    ensures r.Got? ==>
      var body := store.put[resultRef].body;
      IsSlice(body, r.page) && (Valid(body) ==> IsPage(body, r.page)) && r.page.offset == offset &&
      |r.page.content| <= Limit(requestedBytes, maximumBytes)
    ensures r.Got? && maximumOutputBytes > 0 ==> visible(r.page).Some? && visible(r.page).value <= maximumOutputBytes
    ensures (Readable(store, scope, resultRef, offset, now) && stillThere &&
      Limit(requestedBytes, maximumBytes) >= UTF_MAX && maximumBytes >= UTF_MAX) ==>
      (r.Got? ||
       (maximumOutputBytes > 0 && exists page ::
          IsPageAt(store.put[resultRef].body, page, offset) && CannotBeShown(visible, page, maximumOutputBytes)))
  {
    hide Valid, Chars, Join, Shortened, PageEnd;
    r := ReadExternalizedPage(store, scope, resultRef, offset, requestedBytes, maximumBytes, now, stillThere);
    if r.Got? {
      var page := r.page;
      r := MarshalBoundedToolResultPage(visible, page, maximumOutputBytes);
      if r.Got? {
        BoundedIsSlice(store.put[resultRef].body, page, r.page);
      }
    }
  }

  // ----- Following next_offset -----

  function Contents(pages: seq<Page>): seq<byte> {
    if pages == [] then [] else Contents(pages[..|pages| - 1]) + pages[|pages| - 1].content
  }

  /** Pages read one after another from the start, each at the offset the one
      before gave, stopping no later than at the first complete one. */
  ghost predicate Chain(body: seq<byte>, pages: seq<Page>) {
    (forall i | 0 <= i < |pages| :: IsSlice(body, pages[i])) &&
    (|pages| > 0 ==> pages[0].offset == 0) &&
    (forall i | 0 < i < |pages| :: pages[i].offset == pages[i - 1].nextOffset) &&
    (forall i | 0 <= i < |pages| - 1 :: !pages[i].complete)
  }

  /** A chain holds exactly the bytes up to its last next_offset, whatever sizes
      were asked for and however the output limit cut the pages. */
  lemma {:induction false} ChainHoldsTheFront(body: seq<byte>, pages: seq<Page>)
    requires Chain(body, pages) && pages != []
    ensures Contents(pages) == body[..pages[|pages| - 1].nextOffset]
    ensures |pages| - 1 <= pages[|pages| - 1].offset
    decreases |pages|
  {
    hide Valid;
    var n := |pages| - 1;
    if n == 0 {
      assert pages[..0] == [];
    } else {
      var front := pages[..n];
      assert forall i | 0 <= i < n :: front[i] == pages[i];
      ChainHoldsTheFront(body, front);
      assert body[..pages[n].offset] + body[pages[n].offset..pages[n].nextOffset] == body[..pages[n].nextOffset];
    }
  }

  /** A chain that reaches a complete page holds the whole body. */
  lemma PagingLosesNothing(body: seq<byte>, pages: seq<Page>)
    requires Chain(body, pages) && pages != [] && pages[|pages| - 1].complete
    ensures Contents(pages) == body && |pages| <= |body| + 1
  {
    hide Valid;
    ChainHoldsTheFront(body, pages);
  }

  /** While a chain of a valid text is not complete its next offset stands at a
      character, so the next page is refused only for its size. */
  lemma {:induction false} ChainGoesOn(body: seq<byte>, pages: seq<Page>)
    requires Valid(body) && Chain(body, pages)
    ensures var next := if pages == [] then 0 else pages[|pages| - 1].nextOffset;
      next <= |body| && Valid(body[next..])
    decreases |pages|
  {
    hide Valid;
    if pages == [] {
      assert body[0..] == body;
    } else {
      var n := |pages| - 1;
      ChainGoesOn(body, pages[..n]);
      RestIsValid(body, pages[n].offset, pages[n].nextOffset);
    }
  }
}
