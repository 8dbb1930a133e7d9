/** The page walk that measures an Opus file in an Ogg container (getOpusDuration
    in common/audio.go). Pages are as in section 6 of RFC 3533; granule positions
    count 48 kHz samples, section 4 of RFC 7845. */
module OggWalk {
  import opened Common

  const HEADER := 27

  /** The page mark "OggS". */
  predicate MagicAt(data: Bytes, pos: nat) {
    && pos + 4 <= |data|
    && data[pos] == 0x4F && data[pos + 1] == 0x67 && data[pos + 2] == 0x67 && data[pos + 3] == 0x53
  }

  /** Little-endian value of the bytes between two positions. */
  function LittleEndian(data: Bytes, from: nat, end: nat): (v: nat)
    requires from <= end <= |data|
    decreases |data|, end - from
  {
    if from == end then 0 else data[from] + 256 * LittleEndian(data, from + 1, end)
  }

  /** An unsigned 64-bit value read as int64. */
  function Signed(u: nat): (n: int) {
    if u >= 0x8000_0000_0000_0000 then u - 0x1_0000_0000_0000_0000 else u
  }

  function GranuleAt(data: Bytes, pos: nat): int
    requires pos + HEADER <= |data|
  {
    Signed(LittleEndian(data, pos + 6, pos + 14))
  }

  /** The sum of the segment sizes between two positions. */
  function TableSum(data: Bytes, from: nat, end: nat): (v: nat)
    requires from <= end <= |data|
    decreases |data|, end - from
  {
    if from == end then 0 else data[from] + TableSum(data, from + 1, end)
  }

  function Max(a: int, b: int): int { if a > b then a else b }

  // ---- The walk -----------------------------------------------------------------

  /** Where pages were recognised, and the largest granule position seen. */
  datatype Found = Found(starts: seq<nat>, peak: int)

  /** What the walk finds from a file position on: one byte further without a
      page mark, past the whole page with one, and an end when a header or its
      segment table is cut off. The position always grows. */
  function Walk(data: Bytes, pos: nat, peak: int): (f: Found)
    decreases |data| - pos
  {
    if pos + HEADER > |data| then Found([], peak)
    else if !MagicAt(data, pos) then Walk(data, pos + 1, peak)
    else
      var peak', n := Max(peak, GranuleAt(data, pos)), data[pos + 26];
      if pos + HEADER + n > |data| then Found([pos], peak')
      else After([pos], Walk(data, pos + HEADER + n + TableSum(data, pos + HEADER, pos + HEADER + n), peak'))
  }

  function After(starts: seq<nat>, f: Found): Found {
    Found(starts + f.starts, f.peak)
  }

  lemma AfterPage(starts: seq<nat>, pos: nat, f: Found)
    ensures After(starts, After([pos], f)) == After(starts + [pos], f)
  {
    assert starts + ([pos] + f.starts) == (starts + [pos]) + f.starts;
  }

  /** The file holds the given bytes at a position. */
  predicate HoldsAt(data: Bytes, at: nat, part: Bytes) {
    at + |part| <= |data| && forall i :: 0 <= i < |part| ==> data[at + i] == part[i]
  }

  /** Numbers read from a part are the numbers read from the file. */
  lemma {:induction false} SameNumbers(data: Bytes, at: nat, part: Bytes, i: nat, j: nat)
    requires HoldsAt(data, at, part) && i <= j <= |part|
    ensures LittleEndian(data, at + i, at + j) == LittleEndian(part, i, j) && TableSum(data, at + i, at + j) == TableSum(part, i, j)
    decreases j - i
  {
    if i == j {
    } else {
      assert data[at + i] == part[i];
      SameNumbers(data, at, part, i + 1, j);
    }
  }

  /** One recognised page: how the header and the segment table are read. */
  method ReadPage(data: Bytes, at: nat, buf: Bytes, total: int) returns (peak: int, pos: nat, cutOff: bool)
    requires at + HEADER <= |data| && MagicAt(data, at) && buf == data[at..at + HEADER]
    ensures pos > at && peak == Max(total, GranuleAt(data, at))
    ensures cutOff <==> at + HEADER + data[at + 26] > |data|
    ensures !cutOff ==> pos == at + HEADER + data[at + 26] + TableSum(data, at + HEADER, at + HEADER + data[at + 26])
  {
    pos := at + HEADER;
    assert HoldsAt(data, at, buf);
    SameNumbers(data, at, buf, 6, 14);
    assert buf[26] == data[at + 26];
    var granule := GranuleAt(buf, 0);
    peak := if granule > total then granule else total;
    var numSegments := buf[26];
    if pos + numSegments > |data| {
      cutOff := true;
      return;
    }
    var table := data[pos..pos + numSegments];
    var pageSize := SumSegments(table);
    assert HoldsAt(data, pos, table);
    SameNumbers(data, pos, table, 0, numSegments);
    pos := pos + numSegments + pageSize;
    cutOff := false;
  }

  method SumSegments(table: Bytes) returns (size: nat)
    ensures size == TableSum(table, 0, |table|)
  {
    size := 0;
    for i := 0 to |table|
      invariant size + TableSum(table, i, |table|) == TableSum(table, 0, |table|)
    {
      size := size + table[i];
    }
  }

  /** The loop over a seekable file; `starts` records the pages it recognised. */
  method GetOpusDuration(data: Bytes) returns (duration: real, starts: seq<nat>)
    ensures starts == Walk(data, 0, 0).starts
    ensures duration == Walk(data, 0, 0).peak as real / 48000.0
  {
    var total, pos := 0, 0;
    starts := [];
    ghost var expected := Walk(data, 0, 0);
    assert After([], expected) == expected;
    while true
      invariant expected == After(starts, Walk(data, pos, total))
      decreases |data| - pos
    {
      if pos + HEADER > |data| { break; }
      var buf := data[pos..pos + HEADER];
      if !MagicAt(buf, 0) {
        pos := pos + HEADER - 26;
      } else {
        var peak, next, cutOff := ReadPage(data, pos, buf, total);
        AfterPage(starts, pos, if cutOff then Found([], peak) else Walk(data, next, peak));
        starts, total := starts + [pos], peak;
        if cutOff { break; }
        pos := next;
      }
    }
    duration := total as real / 48000.0;
  }

  // ---- Well-formed containers ---------------------------------------------------------

  /** A page: the mark, the rest of the 27-byte header whose last byte counts
      the segments, the segment table, and a body as long as the table says. */
  predicate IsPage(page: Bytes) {
    && |page| >= HEADER && MagicAt(page, 0)
    && HEADER + page[26] <= |page| && |page| == HEADER + page[26] + TableSum(page, HEADER, HEADER + page[26])
  }

  /** No page mark anywhere inside. */
  predicate Markless(gap: Bytes) {
    forall i :: 0 <= i < |gap| ==> !MagicAt(gap, i)
  }

  /** Pages, each after some stray bytes, and a stray tail. */
  datatype Item = Item(gap: Bytes, page: Bytes)

  predicate ValidItems(items: seq<Item>) {
    forall i :: 0 <= i < |items| ==> IsPage(items[i].page) && Markless(items[i].gap)
  }

  function Container(items: seq<Item>, tail: Bytes): (r: Bytes) {
    if items == [] then tail else items[0].gap + items[0].page + Container(items[1..], tail)
  }

  function PageStarts(items: seq<Item>, from: nat): (r: seq<nat>) {
    if items == [] then []
    else
      var at := from + |items[0].gap|;
      [at] + PageStarts(items[1..], at + |items[0].page|)
  }

  function Peak(items: seq<Item>, peak: int): (r: int)
    requires ValidItems(items)
  {
    if items == [] then peak else Peak(items[1..], Max(peak, GranuleAt(items[0].page, 0)))
  }

  /** Stray bytes are stepped over one by one. */
  lemma {:induction false} SkipGap(data: Bytes, pos: nat, n: nat, peak: int)
    requires forall i :: pos <= i < pos + n ==> !MagicAt(data, i)
    ensures Walk(data, pos, peak) == Walk(data, pos + n, peak)
    decreases n
  {
    if n == 0 {
    } else {
      SkipGap(data, pos + 1, n - 1, peak);
    }
  }

  /** "OggS" has no proper border, so no mark straddles a gap and the page or the
      end of the file behind it. */
  lemma NoStraddle(data: Bytes, at: nat, gap: Bytes, i: nat)
    requires HoldsAt(data, at, gap) && Markless(gap) && i < |gap|
    requires at + |gap| == |data| || MagicAt(data, at + |gap|)
    ensures !MagicAt(data, at + i)
  {
    assert data[at + i] == gap[i] && !MagicAt(gap, i);
    if i + 1 < |gap| { assert data[at + (i + 1)] == gap[i + 1]; }
    if i + 2 < |gap| { assert data[at + (i + 2)] == gap[i + 2]; }
    if i + 3 < |gap| { assert data[at + (i + 3)] == gap[i + 3]; }
  }

  lemma ReachNext(data: Bytes, at: nat, gap: Bytes, peak: int)
    requires HoldsAt(data, at, gap) && Markless(gap)
    requires at + |gap| == |data| || MagicAt(data, at + |gap|)
    ensures Walk(data, at, peak) == Walk(data, at + |gap|, peak)
  {
    forall i | at <= i < at + |gap| ensures !MagicAt(data, i) {
      NoStraddle(data, at, gap, i - at);
    }
    SkipGap(data, at, |gap|, peak);
  }

  /** One whole page is recognised, measured and skipped, whatever its body holds. */
  lemma WalkPage(data: Bytes, at: nat, page: Bytes, peak: int)
    requires IsPage(page) && HoldsAt(data, at, page)
    ensures MagicAt(data, at)
    ensures Walk(data, at, peak) == After([at], Walk(data, at + |page|, Max(peak, GranuleAt(page, 0))))
  {
    assert data[at + 0] == page[0] && data[at + 1] == page[1] && data[at + 2] == page[2] && data[at + 3] == page[3];
    assert data[at + 26] == page[26];
    SameNumbers(data, at, page, 6, 14);
    SameNumbers(data, at, page, HEADER, HEADER + page[26]);
  }

  lemma PiecesAt(data: Bytes, at: nat, gap: Bytes, page: Bytes, more: Bytes)
    requires HoldsAt(data, at, gap + page + more)
    ensures HoldsAt(data, at, gap) && HoldsAt(data, at + |gap|, page) && HoldsAt(data, at + |gap| + |page|, more)
  {
    var all := gap + page + more;
    forall i | 0 <= i < |gap| ensures data[at + i] == gap[i] {
      assert all[i] == gap[i];
    }
    forall i | 0 <= i < |page| ensures data[at + |gap| + i] == page[i] {
      assert all[|gap| + i] == page[i] && data[at + (|gap| + i)] == all[|gap| + i];
    }
    forall i | 0 <= i < |more| ensures data[at + |gap| + |page| + i] == more[i] {
      assert all[|gap| + |page| + i] == more[i] && data[at + (|gap| + |page| + i)] == all[|gap| + |page| + i];
    }
  }

  /** The walk over any container visits exactly the page starts, even when page
      bodies contain the page mark, and returns the largest granule position. */
  lemma {:induction false} WalkContainer(data: Bytes, at: nat, items: seq<Item>, tail: Bytes, peak: int)
    requires ValidItems(items) && Markless(tail)
    requires HoldsAt(data, at, Container(items, tail)) && at + |Container(items, tail)| == |data|
    ensures Walk(data, at, peak) == Found(PageStarts(items, at), Peak(items, peak))
    decreases |items|
  {
    if items == [] {
      ReachNext(data, at, tail, peak);
    } else {
      var Item(gap, page) := items[0];
      PiecesAt(data, at, gap, page, Container(items[1..], tail));
      WalkPage(data, at + |gap|, page, peak);
      ReachNext(data, at, gap, peak);
      WalkContainer(data, at + |gap| + |page|, items[1..], tail, Max(peak, GranuleAt(page, 0)));
    }
  }

  /** The whole function on a well-formed file. */
  lemma DurationOfContainer(items: seq<Item>, tail: Bytes)
    requires ValidItems(items) && Markless(tail)
    ensures Walk(Container(items, tail), 0, 0) == Found(PageStarts(items, 0), Peak(items, 0))
  {
    WalkContainer(Container(items, tail), 0, items, tail, 0);
  }

  /** The given positions, from the first one on, hold the given pages, in order. */
  predicate StartsOf(file: Bytes, from: nat, starts: seq<nat>, items: seq<Item>) {
    && |starts| == |items|
    && (forall i :: 0 <= i < |items| ==> from <= starts[i] && HoldsAt(file, starts[i], items[i].page))
    && (forall i, j :: 0 <= i < j < |items| ==> starts[i] + |items[i].page| <= starts[j])
  }

  lemma StartsCons(file: Bytes, from: nat, start: nat, item: Item, later: seq<nat>, rest: seq<Item>)
    requires from <= start && HoldsAt(file, start, item.page) && StartsOf(file, start + |item.page|, later, rest)
    ensures StartsOf(file, from, [start] + later, [item] + rest)
  {
  }

  /** The page starts of a container are where its pages are. */
  lemma {:induction false} StartsHoldPages(file: Bytes, at: nat, items: seq<Item>, tail: Bytes)
    requires HoldsAt(file, at, Container(items, tail))
    ensures StartsOf(file, at, PageStarts(items, at), items)
    decreases |items|
  {
    if items == [] {
    } else {
      var first, rest := items[0], items[1..];
      var start := at + |first.gap|;
      var next := start + |first.page|;
      PiecesAt(file, at, first.gap, first.page, Container(rest, tail));
      StartsHoldPages(file, next, rest, tail);
      StartsCons(file, at, start, first, PageStarts(rest, next), rest);
      assert [first] + rest == items && PageStarts(items, at) == [start] + PageStarts(rest, next);
    }
  }

  /** The peak is the maximum of the start value and the signed granule positions. */
  lemma {:induction false} PeakIsMaximum(items: seq<Item>, peak: int)
    requires ValidItems(items)
    ensures Peak(items, peak) >= peak && forall i :: 0 <= i < |items| ==> GranuleAt(items[i].page, 0) <= Peak(items, peak)
    ensures Peak(items, peak) == peak || exists i :: 0 <= i < |items| && GranuleAt(items[i].page, 0) == Peak(items, peak)
    decreases |items|
  {
    if items == [] {
    } else {
      var rest, higher := items[1..], Max(peak, GranuleAt(items[0].page, 0));
      PeakIsMaximum(rest, higher);
      forall i | 0 <= i < |items| ensures GranuleAt(items[i].page, 0) <= Peak(items, peak) {
        if i > 0 {
          assert items[i] == rest[i - 1];
        }
      }
      if Peak(items, peak) != peak && Peak(rest, higher) != higher {
        var i :| 0 <= i < |rest| && GranuleAt(rest[i].page, 0) == Peak(rest, higher);
        assert items[i + 1] == rest[i];
      }
    }
  }

  predicate Separate(data: Bytes, pos: nat, starts: seq<nat>) {
    && (forall i :: 0 <= i < |starts| ==> pos <= starts[i] && starts[i] + HEADER <= |data| && MagicAt(data, starts[i]))
    && (forall i, j :: 0 <= i < j < |starts| ==> starts[i] + HEADER <= starts[j])
  }

  lemma SeparateCons(data: Bytes, pos: nat, next: nat, rest: seq<nat>)
    requires Separate(data, next, rest) && pos + HEADER <= next && pos + HEADER <= |data| && MagicAt(data, pos)
    ensures Separate(data, pos, [pos] + rest)
  {
  }

  /** On arbitrary bytes: recognised pages carry the mark, lie inside the file
      and are at least a header apart. */
  lemma {:induction false} StartsAreSeparate(data: Bytes, pos: nat, peak: int)
    ensures Separate(data, pos, Walk(data, pos, peak).starts)
    decreases |data| - pos
  {
    if pos + HEADER > |data| {
    } else {
      if !MagicAt(data, pos) {
        StartsAreSeparate(data, pos + 1, peak);
      } else {
        var n := data[pos + 26];
        if pos + HEADER + n <= |data| {
          var next, higher := pos + HEADER + n + TableSum(data, pos + HEADER, pos + HEADER + n), Max(peak, GranuleAt(data, pos));
          StartsAreSeparate(data, next, higher);
          SeparateCons(data, pos, next, Walk(data, next, higher).starts);
        }
      }
    }
  }
}
