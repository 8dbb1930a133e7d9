/** The read-only key listing of ManageMultiKeys (get_key_status in
    controller/channel.go): per-key status, overall counts, a status filter and
    pages. The page arithmetic is that of a 64-bit int. */
module KeyStatusPage {
  import opened Common
  import opened ChannelKeys
  import opened Lists
  import opened MultiKey

  datatype KeyStatus = KeyStatus(index: nat, status: int, disabledTime: int, reason: string, preview: string)

  datatype Listing = Listing(keys: seq<KeyStatus>, total: nat, page: int, pageSize: int, totalPages: int,
                             enabled: nat, manuallyDisabled: nat, autoDisabled: nat)

  function Preview(key: string): string {
    if |key| > 10 then key[..10] + "..." else key
  }

  /** What the listing shows of one record. */
  function Shown(i: nat, r: Record): (k: KeyStatus) {
    KeyStatus(i, r.status,
              if r.status != ENABLED && r.time.Some? then r.time.value else 0,
              if r.status != ENABLED && r.reason.Some? then r.reason.value else "",
              Preview(r.key))
  }

  function AllShown(records: seq<Record>): (r: seq<KeyStatus>)
    ensures |r| == |records|
  {
    seq(|records|, i requires 0 <= i < |records| => Shown(i, records[i]))
  }

  function WithWanted(status: int): KeyStatus -> bool {
    (k: KeyStatus) => k.status == status
  }

  function Matching(records: seq<Record>, filter: Option<int>): (r: seq<KeyStatus>) {
    if filter.Some? then Filter(AllShown(records), WithWanted(filter.value)) else AllShown(records)
  }

  /** Every line of a listing shows the record at its index, with the wanted
      status; every such record is shown; and the lines are in order of index. */
  lemma LinesShowRecords(records: seq<Record>, filter: Option<int>)
    ensures var lines := Matching(records, filter);
      && (forall line :: line in lines ==> line.index < |records| && ShowsRecord(line, records[line.index]))
      && (forall line :: line in lines && filter.Some? ==> line.status == filter.value)
      && (forall i :: 0 <= i < |records| && (filter.None? || records[i].status == filter.value) ==> Shown(i, records[i]) in lines)
      && InOrder(lines)
  {
    var all := AllShown(records);
    assert forall i :: 0 <= i < |records| ==> all[i] == Shown(i, records[i]) && all[i].index == i;
    if filter.Some? {
      FilterMembers(all, WithWanted(filter.value));
      FilterInOrder(all, WithWanted(filter.value));
    }
  }

  predicate InOrder(lines: seq<KeyStatus>) {
    forall k, l :: 0 <= k < l < |lines| ==> lines[k].index < lines[l].index
  }

  lemma {:induction false} FilterInOrder(lines: seq<KeyStatus>, p: KeyStatus -> bool)
    requires InOrder(lines)
    ensures InOrder(Filter(lines, p))
  {
    if lines == [] {
    } else {
      var init := lines[..|lines| - 1];
      FilterInOrder(init, p);
      FilterMembers(init, p);
      assert forall k :: 0 <= k < |Filter(init, p)| ==> Filter(init, p)[k] in init;
    }
  }

  /** Status; time and reason unless the key is enabled; at most ten characters of
      the key. */
  predicate ShowsRecord(line: KeyStatus, r: Record) {
    && line.status == r.status
    && line.disabledTime == (if r.status != 1 && r.time.Some? then r.time.value else 0)
    && line.reason == (if r.status != 1 && r.reason.Some? then r.reason.value else "")
    && (|r.key| <= 10 ==> line.preview == r.key)
    && (|r.key| > 10 ==> |line.preview| == 13 && line.preview[..10] == r.key[..10] && line.preview[10..] == "...")
  }

  // ---- Pages as they should be ------------------------------------------------------

  /** ceil(n / size), but at least one. */
  function TotalPages(n: nat, size: int): (pages: int)
    requires size >= 1
    ensures pages >= 1 && (pages - 1) * size <= n && n <= pages * size
    ensures n > 0 ==> (pages - 1) * size < n
  {
    var pages := (n + size - 1) / size;
    if pages == 0 then 1 else pages
  }

  lemma PageBounds(n: nat, page: int, size: int)
    requires size >= 1 && 1 <= page <= TotalPages(n, size)
    ensures 0 <= (page - 1) * size <= n
    ensures page * size == (page - 1) * size + size
    ensures page < TotalPages(n, size) ==> page * size <= n
    ensures page == TotalPages(n, size) ==> n <= page * size
  {
    var pages := TotalPages(n, size);
    MulMonotone(0, page - 1, size);
    MulMonotone(page - 1, pages - 1, size);
    if page < pages {
      MulMonotone(page, pages - 1, size);
    }
  }

  lemma MulMonotone(a: int, b: int, c: int)
    requires a <= b && c >= 0
    ensures a * c <= b * c
  {
    assert (b - a) * c >= 0;
  }

  function PageOf<T>(list: seq<T>, page: int, size: int): (slice: seq<T>)
    requires size >= 1 && 1 <= page <= TotalPages(|list|, size)
  {
    PageBounds(|list|, page, size);
    var start := (page - 1) * size;
    var end := if start + size > |list| then |list| else start + size;
    list[start..end]
  }

  datatype View<+T> = View(page: int, totalPages: int, keys: seq<T>) | Panics

  /** The intended answer to a request: a page past the end means the last one. */
  function Intended<T>(list: seq<T>, requested: int, size: int): (v: View<T>)
    requires requested >= 1 && size >= 1
  {
    var pages := TotalPages(|list|, size);
    var page := if requested > pages then pages else requested;
    View(page, pages, PageOf(list, page, size))
  }

  // ---- Pages as they are computed -----------------------------------------------------

  /** Division toward zero, as on Go's integers. */
  function Quotient(n: int, size: int): int
    requires size >= 1
  {
    if n >= 0 then n / size else -((-n) / size)
  }

  function ComputedPages(n: nat, size: int): (pages: int)
    requires size >= 1
  {
    var pages := Quotient(Wrap(Wrap(n + size) - 1), size);
    if pages == 0 then 1 else pages
  }

  function Computed<T>(list: seq<T>, requested: int, size: int): (v: View<T>)
    requires size >= 1
  {
    var pages := ComputedPages(|list|, size);
    Sliced(list, if requested > pages then pages else requested, size, pages)
  }

  /** Slicing panics on bounds out of order or out of range. */
  function Sliced<T>(list: seq<T>, page: int, size: int, pages: int): (v: View<T>) {
    var start := Wrap(Wrap(page - 1) * size);
    var upTo := Wrap(start + size);
    var end := if upTo > |list| then |list| else upTo;
    if start >= |list| then View(page, pages, [])
    else if 0 <= start <= end then View(page, pages, list[start..end])
    else Panics
  }

  /** The sum of count and page size does not wrap, or it wraps so far that the
      quotient is zero and a single page is right. */
  predicate SizeFits(n: nat, size: int) {
    n + size - 1 <= MAX_INT64 || (n <= size && n + 2 * size - 1 > 0x1_0000_0000_0000_0000)
  }

  lemma ComputedPagesIff(n: nat, size: int)
    requires n <= MAX_INT64 && 1 <= size <= MAX_INT64
    ensures ComputedPages(n, size) == TotalPages(n, size) <==> SizeFits(n, size)
    ensures n + size - 1 > MAX_INT64 && n + 2 * size - 1 <= 0x1_0000_0000_0000_0000 ==> ComputedPages(n, size) < 0
    ensures n + size - 1 > MAX_INT64 && n + 2 * size - 1 > 0x1_0000_0000_0000_0000 ==> ComputedPages(n, size) == 1
  {
    var sum := Wrap(Wrap(n + size) - 1);
    if n + size - 1 <= MAX_INT64 {
      assert sum == n + size - 1;
    } else {
      assert sum == n + size - 1 - 0x1_0000_0000_0000_0000;
      SmallQuotient(-sum, size);
      OnePageIff(n, size);
    }
  }

  lemma SmallQuotient(v: int, size: int)
    requires v > 0 && size >= 1
    ensures v / size == 0 <==> v < size
    ensures v / size >= 0
  {
    var q := v / size;
    assert v == q * size + v % size;
    if q >= 1 {
      MulMonotone(1, q, size);
    }
  }

  lemma OnePage(n: nat, size: int, pages: int)
    requires size >= 1 && pages >= 1 && n <= pages * size && (n > 0 ==> (pages - 1) * size < n) && (pages - 1) * size <= n
    ensures pages == 1 <==> n <= size
  {
    if pages >= 2 {
      MulMonotone(1, pages - 1, size);
    }
  }

  lemma OnePageIff(n: nat, size: int)
    requires size >= 1
    ensures TotalPages(n, size) == 1 <==> n <= size
  {
    OnePage(n, size, TotalPages(n, size));
  }

  lemma StartFits(n: nat, page: int, size: int, pages: int)
    requires size >= 1 && 1 <= page <= pages && (n > 0 ==> (pages - 1) * size < n) && (pages - 1) * size <= n
    requires n + size - 1 <= MAX_INT64 && size <= MAX_INT64
    ensures 0 <= (page - 1) * size <= n && (page - 1) * size + size <= MAX_INT64
  {
    MulMonotone(0, page - 1, size);
    MulMonotone(page - 1, pages - 1, size);
  }

  /** The rest of the computation, once the number of pages is right. */
  lemma RightPage<T>(list: seq<T>, page: int, size: int)
    requires |list| <= MAX_INT64 && 1 <= size <= MAX_INT64 && 1 <= page <= TotalPages(|list|, size) && SizeFits(|list|, size)
    ensures page - 1 <= MAX_INT64 && 0 <= (page - 1) * size <= |list| && (page - 1) * size + size <= MAX_INT64
  {
    var n, pages := |list|, TotalPages(|list|, size);
    if n + size - 1 <= MAX_INT64 {
      StartFits(n, page, size, pages);
    } else {
      OnePageIff(n, size);
    }
    MulMonotone(1, size, page - 1);
  }

  /** The computed answer is the intended one, for any request, if and only if
      the sizes fit. */
  lemma ComputedIsIntendedIff<T>(list: seq<T>, requested: int, size: int)
    requires |list| <= MAX_INT64 && requested >= 1 && 1 <= size <= MAX_INT64
    ensures Computed(list, requested, size) == Intended(list, requested, size) <==> SizeFits(|list|, size)
  {
    ComputedPagesIff(|list|, size);
    var pages := TotalPages(|list|, size);
    if SizeFits(|list|, size) {
      var page := if requested > pages then pages else requested;
      RightPage(list, page, size);
      SameSlice(list, page, size);
    }
  }

  lemma SameSlice<T>(list: seq<T>, page: int, size: int)
    requires size >= 1 && 1 <= page <= TotalPages(|list|, size) && page - 1 <= MAX_INT64
    requires 0 <= (page - 1) * size <= |list| <= MAX_INT64 && (page - 1) * size + size <= MAX_INT64
    ensures Sliced(list, page, size, TotalPages(|list|, size)) == View(page, TotalPages(|list|, size), PageOf(list, page, size))
  {
  }

  /** What a request gets when the sizes fit: its slice of the list, or the last
      one when there are not so many pages. */
  lemma RequestedSlice<T>(list: seq<T>, requested: int, size: int)
    requires |list| <= MAX_INT64 && requested >= 1 && 1 <= size <= MAX_INT64 && SizeFits(|list|, size)
    ensures var v := Computed(list, requested, size); var n := |list|;
      && v.View? && 1 <= v.page <= v.totalPages && 0 <= (v.page - 1) * size <= n
      && v.page == (if requested <= v.totalPages then requested else v.totalPages)
      && (v.totalPages - 1) * size <= n <= v.totalPages * size && (n > 0 ==> (v.totalPages - 1) * size < n)
      && v.keys == list[(v.page - 1) * size..if (v.page - 1) * size + size < n then (v.page - 1) * size + size else n]
  {
    ComputedIsIntendedIff(list, requested, size);
    var pages := TotalPages(|list|, size);
    PageBounds(|list|, if requested > pages then pages else requested, size);
  }

  /** With the largest page size, three matching keys make the listing panic and
      two come back as an empty page. */
  lemma LargestSizeFails<T>(list: seq<T>, requested: int)
    requires requested >= 1 && (|list| == 2 || |list| == 3)
    ensures |list| == 3 ==> Computed(list, requested, MAX_INT64) == Panics
    ensures |list| == 2 ==> Computed(list, requested, MAX_INT64) == View(-1, -1, [])
  {
    assert ComputedPages(|list|, MAX_INT64) == -1;
    assert Wrap(-2 * MAX_INT64) == 2;
  }

  // ---- The listing ------------------------------------------------------------------

  /** The first loop: every key's line and the overall statistics. */
  method BuildAll(records: seq<Record>) returns (all: seq<KeyStatus>, enabled: nat, manual: nat, auto: nat)
    ensures all == AllShown(records) && enabled == Count(records, ENABLED)
    ensures manual == Count(records, MANUALLY_DISABLED) && auto == Count(records, AUTO_DISABLED)
  {
    all, enabled, manual, auto := [], 0, 0, 0;
    for i := 0 to |records|
      invariant all == AllShown(records[..i])
      invariant enabled == Count(records[..i], ENABLED)
      invariant manual == Count(records[..i], MANUALLY_DISABLED)
      invariant auto == Count(records[..i], AUTO_DISABLED)
    {
      var prefix := records[..i + 1];
      assert prefix[..|prefix| - 1] == records[..i] && prefix[|prefix| - 1] == records[i];
      var status := records[i].status;
      if status == ENABLED { enabled := enabled + 1; }
      else if status == MANUALLY_DISABLED { manual := manual + 1; }
      else if status == AUTO_DISABLED { auto := auto + 1; }
      all := all + [Shown(i, records[i])];
    }
    assert records[..|records|] == records;
  }

  /** The second loop: the status filter. */
  method WithStatus(all: seq<KeyStatus>, status: int) returns (filtered: seq<KeyStatus>)
    ensures filtered == Filter(all, WithWanted(status))
  {
    var wanted := WithWanted(status);
    filtered := [];
    for i := 0 to |all|
      invariant filtered == Filter(all[..i], wanted)
    {
      assert all[..i + 1] == all[..i] + [all[i]];
      FilterSnoc(all[..i], all[i], wanted);
      if all[i].status == status {
        filtered := filtered + [all[i]];
      }
    }
    assert all[..|all|] == all;
  }

  /** The page arithmetic. */
  method Paginate(filtered: seq<KeyStatus>, requested: int, pageSize: int) returns (v: View<KeyStatus>)
    requires pageSize >= 1
    ensures v == Computed(filtered, requested, pageSize)
  {
    var totalPages := Quotient(Wrap(Wrap(|filtered| + pageSize) - 1), pageSize);
    if totalPages == 0 { totalPages := 1; }
    var page := requested;
    if page > totalPages { page := totalPages; }
    v := PageData(filtered, page, pageSize, totalPages);
  }

  method PageData(filtered: seq<KeyStatus>, page: int, pageSize: int, totalPages: int) returns (v: View<KeyStatus>)
    ensures v == Sliced(filtered, page, pageSize, totalPages)
  {
    var start := Wrap(Wrap(page - 1) * pageSize);
    var end := Wrap(start + pageSize);
    if end > |filtered| { end := |filtered|; }
    var slice: seq<KeyStatus> := [];
    if start < |filtered| {
      if start < 0 || end < start { return Panics; }
      slice := filtered[start..end];
    }
    return View(page, totalPages, slice);
  }

  /** None when the handler panics. */
  method GetKeyStatus(records: seq<Record>, filter: Option<int>, requestPage: int, requestSize: int) returns (r: Option<Listing>)
    ensures var page := if requestPage <= 0 then 1 else requestPage; var pageSize := if requestSize <= 0 then 50 else requestSize;
      var matching := Matching(records, filter);
      match Computed(matching, page, pageSize)
      case Panics => r == None
      case View(page, totalPages, keys) =>
        r == Some(Listing(keys, |matching|, page, pageSize, totalPages,
                          Count(records, 1), Count(records, 2), Count(records, 3)))
  {
    var page := if requestPage <= 0 then 1 else requestPage;
    var pageSize := if requestSize <= 0 then 50 else requestSize;
    var filtered, enabled, manual, auto := BuildAll(records);
    if filter.Some? {
      filtered := WithStatus(filtered, filter.value);
    }
    var view := Paginate(filtered, page, pageSize);
    if view.Panics? { return None; }
    return Some(Listing(view.keys, |filtered|, view.page, pageSize, view.totalPages, enabled, manual, auto));
  }

  // ---- Paging loses nothing -------------------------------------------------------

  /** Pages 1..page one after the other. */
  function FirstPages<T>(list: seq<T>, page: int, size: int): (r: seq<T>)
    requires size >= 1 && 0 <= page <= TotalPages(|list|, size)
    decreases page
  {
    if page == 0 then [] else FirstPages(list, page - 1, size) + PageOf(list, page, size)
  }

  lemma PageExtends<T>(list: seq<T>, page: int, size: int)
    requires size >= 1 && 1 <= page <= TotalPages(|list|, size)
    ensures 0 <= (page - 1) * size <= |list|
    ensures list[..(page - 1) * size] + PageOf(list, page, size) == list[..if page * size > |list| then |list| else page * size]
  {
    PageBounds(|list|, page, size);
  }

  lemma {:induction false} FirstPagesArePrefix<T>(list: seq<T>, page: int, size: int)
    requires size >= 1 && 0 <= page <= TotalPages(|list|, size)
    ensures FirstPages(list, page, size) == list[..if page * size > |list| then |list| else page * size]
    decreases page
  {
    if page == 0 {
    } else {
      PageExtends(list, page, size);
      FirstPagesArePrefix(list, page - 1, size);
    }
  }

  /** All the pages together are the filtered list, every key once and in order,
      and every page but the last is full. */
  lemma PagesCoverList<T>(list: seq<T>, size: int)
    requires size >= 1
    ensures FirstPages(list, TotalPages(|list|, size), size) == list
    ensures forall page :: 1 <= page < TotalPages(|list|, size) ==> |PageOf(list, page, size)| == size
  {
    var pages := TotalPages(|list|, size);
    PageBounds(|list|, pages, size);
    FirstPagesArePrefix(list, pages, size);
    assert list[..|list|] == list;
    forall page | 1 <= page < pages ensures |PageOf(list, page, size)| == size {
      PageBounds(|list|, page, size);
    }
  }

  /** Requesting pages 1, 2, and so on gives the whole list, and any later number
      the last page, if and only if the sizes fit. */
  lemma RequestsCoverListIff<T>(list: seq<T>, size: int)
    requires |list| <= MAX_INT64 && 1 <= size <= MAX_INT64
    ensures (forall requested :: requested >= 1 ==> Computed(list, requested, size) == Intended(list, requested, size)) <==> SizeFits(|list|, size)
  {
    ComputedIsIntendedIff(list, 1, size);
    forall requested | requested >= 1
      ensures Computed(list, requested, size) == Intended(list, requested, size) <==> SizeFits(|list|, size)
    {
      ComputedIsIntendedIff(list, requested, size);
    }
  }

  /** The three counts account for every key exactly when every stored status is
      one of the three. */
  lemma {:induction false} CountsAddUpIff(records: seq<Record>)
    ensures Count(records, ENABLED) + Count(records, MANUALLY_DISABLED) + Count(records, AUTO_DISABLED) <= |records|
    ensures Count(records, ENABLED) + Count(records, MANUALLY_DISABLED) + Count(records, AUTO_DISABLED) == |records|
       <==> forall r :: r in records ==> r.status in {ENABLED, MANUALLY_DISABLED, AUTO_DISABLED}
  {
    if records == [] {
    } else {
      var init, last := records[..|records| - 1], records[|records| - 1];
      assert records == init + [last];
      CountsAddUpIff(init);
    }
  }
}
