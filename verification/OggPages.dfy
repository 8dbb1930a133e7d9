/** The Ogg page walk against pages built field by field, as section 6 of RFC 3533
    lays them out: what the walk finds is stated with the granule positions and the
    segments that went into the pages. */
module OggPages {
  import opened Common
  import opened OggWalk

  /** What goes into a page. The table holds the length of each segment. */
  datatype Page = Page(version: Byte, flags: Byte, granule: int, serial: Bytes, sequence: Bytes, checksum: Bytes, segments: seq<Bytes>)

  predicate WellFormed(p: Page) {
    && -0x8000_0000_0000_0000 <= p.granule < 0x8000_0000_0000_0000
    && |p.serial| == 4 && |p.sequence| == 4 && |p.checksum| == 4
    && |p.segments| <= 255 && forall i :: 0 <= i < |p.segments| ==> |p.segments[i]| <= 255
  }

  /** The k low bytes of a number, least significant first. */
  function LowBytes(u: nat, k: nat): (r: Bytes)
    ensures |r| == k
  {
    if k == 0 then [] else [u % 256] + LowBytes(u / 256, k - 1)
  }

  /** Two's complement in eight bytes. */
  function GranuleBytes(g: int): (r: Bytes)
    requires -0x8000_0000_0000_0000 <= g < 0x8000_0000_0000_0000
    ensures |r| == 8
  {
    LowBytes(if g < 0 then g + 0x1_0000_0000_0000_0000 else g, 8)
  }

  function Table(segments: seq<Bytes>): (r: Bytes)
    requires forall i :: 0 <= i < |segments| ==> |segments[i]| <= 255
    ensures |r| == |segments|
  {
    seq(|segments|, i requires 0 <= i < |segments| => |segments[i]|)
  }

  function Body(segments: seq<Bytes>): (r: Bytes) {
    if segments == [] then [] else segments[0] + Body(segments[1..])
  }

  function Header(p: Page): (r: Bytes)
    requires WellFormed(p)
    ensures |r| == 27
  {
    [0x4F, 0x67, 0x67, 0x53, p.version, p.flags] + GranuleBytes(p.granule) + p.serial + p.sequence + p.checksum + [|p.segments|]
  }

  function Encoded(p: Page): (r: Bytes)
    requires WellFormed(p)
  {
    Header(p) + Table(p.segments) + Body(p.segments)
  }

  // ---- Reading the fields back --------------------------------------------------------

  function Power(k: nat): (n: nat)
    ensures n >= 1
  {
    if k == 0 then 1 else 256 * Power(k - 1)
  }

  lemma {:induction false} LowBytesRead(data: Bytes, at: nat, u: nat, k: nat)
    requires HoldsAt(data, at, LowBytes(u, k)) && u < Power(k)
    ensures LittleEndian(data, at, at + k) == u
    decreases k
  {
    if k == 0 {
    } else {
      var low, high := LowBytes(u, k), LowBytes(u / 256, k - 1);
      assert data[at + 0] == low[0];
      forall i | 0 <= i < |high| ensures data[at + 1 + i] == high[i] {
        assert data[at + (i + 1)] == low[i + 1];
      }
      LowBytesRead(data, at + 1, u / 256, k - 1);
    }
  }

  lemma EightBytes()
    ensures Power(8) == 0x1_0000_0000_0000_0000
  {
    assert Power(4) == 0x1_0000_0000;
  }

  lemma GranuleRead(page: Bytes, g: int)
    requires |page| >= HEADER && -0x8000_0000_0000_0000 <= g < 0x8000_0000_0000_0000 && HoldsAt(page, 6, GranuleBytes(g))
    ensures GranuleAt(page, 0) == g
  {
    EightBytes();
    LowBytesRead(page, 6, if g < 0 then g + 0x1_0000_0000_0000_0000 else g, 8);
  }

  lemma {:induction false} TableRead(data: Bytes, at: nat, segments: seq<Bytes>)
    requires (forall i :: 0 <= i < |segments| ==> |segments[i]| <= 255) && HoldsAt(data, at, Table(segments))
    ensures TableSum(data, at, at + |segments|) == |Body(segments)|
    decreases |segments|
  {
    if segments == [] {
    } else {
      var rest := segments[1..];
      assert data[at + 0] == Table(segments)[0];
      forall i | 0 <= i < |rest| ensures data[at + 1 + i] == Table(rest)[i] {
        assert data[at + (i + 1)] == Table(segments)[i + 1];
      }
      TableRead(data, at + 1, rest);
    }
  }

  lemma HeaderLayout(p: Page)
    requires WellFormed(p)
    ensures MagicAt(Header(p), 0) && HoldsAt(Header(p), 6, GranuleBytes(p.granule)) && Header(p)[26] == |p.segments|
  {
    var start := [0x4F, 0x67, 0x67, 0x53, p.version, p.flags];
    var rest := p.serial + p.sequence + p.checksum + [|p.segments|];
    assert Header(p) == start + GranuleBytes(p.granule) + rest;
  }

  /** A page built from its fields is a page of the walk, with that granule
      position, as long as its header, table and segments. */
  lemma EncodedIsPage(p: Page)
    requires WellFormed(p)
    ensures IsPage(Encoded(p)) && GranuleAt(Encoded(p), 0) == p.granule
  {
    var page, header, table := Encoded(p), Header(p), Table(p.segments);
    HeaderLayout(p);
    assert forall i :: 0 <= i < HEADER ==> page[i] == header[i];
    forall i | 0 <= i < 8 ensures page[6 + i] == GranuleBytes(p.granule)[i] {
      assert header[6 + i] == GranuleBytes(p.granule)[i];
    }
    GranuleRead(page, p.granule);
    forall i | 0 <= i < |table| ensures page[HEADER + i] == table[i] {
    }
    TableRead(page, HEADER, p.segments);
  }

  // ---- Files of such pages ----------------------------------------------------------------

  /** Pages, each behind some stray bytes. */
  datatype Part = Part(gap: Bytes, page: Page)

  /** The four bytes "OggS" do not occur. */
  predicate NoMark(gap: Bytes) {
    forall i :: 0 <= i <= |gap| - 4 ==> gap[i] != 0x4F || gap[i + 1] != 0x67 || gap[i + 2] != 0x67 || gap[i + 3] != 0x53
  }

  lemma NoMarkIff(gap: Bytes)
    ensures NoMark(gap) <==> Markless(gap)
  {
    assert forall i :: 0 <= i <= |gap| - 4 && !MagicAt(gap, i) ==> gap[i] != 0x4F || gap[i + 1] != 0x67 || gap[i + 2] != 0x67 || gap[i + 3] != 0x53;
    if Markless(gap) {
      forall i | 0 <= i <= |gap| - 4 ensures gap[i] != 0x4F || gap[i + 1] != 0x67 || gap[i + 2] != 0x67 || gap[i + 3] != 0x53 {
        assert !MagicAt(gap, i);
      }
    }
  }

  predicate ValidParts(parts: seq<Part>) {
    forall i :: 0 <= i < |parts| ==> WellFormed(parts[i].page) && NoMark(parts[i].gap)
  }

  function Items(parts: seq<Part>): (r: seq<Item>)
    requires ValidParts(parts)
    ensures |r| == |parts|
  {
    seq(|parts|, i requires 0 <= i < |parts| => Item(parts[i].gap, Encoded(parts[i].page)))
  }

  function File(parts: seq<Part>, tail: Bytes): (r: Bytes)
    requires ValidParts(parts)
  {
    if parts == [] then tail else parts[0].gap + Encoded(parts[0].page) + File(parts[1..], tail)
  }

  /** The largest of zero and the granule positions. */
  predicate IsPeak(peak: int, parts: seq<Part>) {
    && peak >= 0 && (forall i :: 0 <= i < |parts| ==> parts[i].page.granule <= peak)
    && (peak == 0 || exists i :: 0 <= i < |parts| && parts[i].page.granule == peak)
  }

  lemma {:induction false} FileIsContainer(parts: seq<Part>, tail: Bytes)
    requires ValidParts(parts)
    ensures File(parts, tail) == Container(Items(parts), tail)
    decreases |parts|
  {
    if parts == [] {
    } else {
      FileIsContainer(parts[1..], tail);
      assert Items(parts)[1..] == Items(parts[1..]);
    }
  }

  lemma ItemsAreValid(parts: seq<Part>)
    requires ValidParts(parts)
    ensures ValidItems(Items(parts)) && forall i :: 0 <= i < |parts| ==> GranuleAt(Items(parts)[i].page, 0) == parts[i].page.granule
  {
    forall i | 0 <= i < |parts| ensures IsPage(Items(parts)[i].page) && GranuleAt(Items(parts)[i].page, 0) == parts[i].page.granule && Markless(parts[i].gap) {
      NoMarkIff(parts[i].gap);
      EncodedIsPage(parts[i].page);
    }
  }

  /** On every file of well-formed pages, with stray bytes between them, the walk
      visits exactly the pages and finds the largest of zero and their granule
      positions, whatever the segments hold. */
  lemma WalkOfFile(parts: seq<Part>, tail: Bytes)
    requires ValidParts(parts) && NoMark(tail)
    ensures var file := File(parts, tail); var found := Walk(file, 0, 0);
      && |found.starts| == |parts| && IsPeak(found.peak, parts)
      && (forall i :: 0 <= i < |parts| ==> HoldsAt(file, found.starts[i], Encoded(parts[i].page)))
      && (forall i, j :: 0 <= i < j < |parts| ==> found.starts[i] + |Encoded(parts[i].page)| <= found.starts[j])
  {
    var file, items := File(parts, tail), Items(parts);
    NoMarkIff(tail);
    ItemsAreValid(parts);
    FileIsContainer(parts, tail);
    DurationOfContainer(items, tail);
    StartsHoldPages(file, 0, items, tail);
    PeakIsMaximum(items, 0);
    var peak := Peak(items, 0);
    forall i | 0 <= i < |parts| ensures parts[i].page.granule <= peak {
      assert GranuleAt(items[i].page, 0) == parts[i].page.granule;
    }
  }

  /** One page alone. */
  lemma WalkOfPage(p: Page)
    requires WellFormed(p)
    ensures Walk(Encoded(p), 0, 0) == Found([0], if p.granule > 0 then p.granule else 0)
  {
    EncodedIsPage(p);
    WalkPage(Encoded(p), 0, Encoded(p), 0);
  }

  /** A page that is cut off still counts when its header is complete, wherever the
      table or the segments end; a shorter rest is ignored. */
  lemma WalkOfCutPage(p: Page, length: nat)
    requires WellFormed(p) && length <= |Encoded(p)|
    ensures Walk(Encoded(p)[..length], 0, 0)
         == if length < 27 then Found([], 0) else Found([0], if p.granule > 0 then p.granule else 0)
  {
    var page, data := Encoded(p), Encoded(p)[..length];
    EncodedIsPage(p);
    if length >= 27 {
      var header := page[..27];
      assert HoldsAt(data, 0, header) && HoldsAt(page, 0, header);
      SameNumbers(data, 0, header, 6, 14);
      SameNumbers(page, 0, header, 6, 14);
      assert GranuleAt(data, 0) == p.granule && data[26] == page[26];
      if HEADER + page[26] <= length {
        SameNumbers(page, 0, data, HEADER, HEADER + page[26]);
      }
    }
  }
}
