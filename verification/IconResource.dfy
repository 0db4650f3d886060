/**
 Converting an ICO file to a Win32 resource file, and reading such a file back: a walk from
 header to header, each record's length rounded up to four, meets a null record, one record for
 each image and last the group that lists the images by size and id.
 */
module IconResource {
  import opened Wrappers
  import opened Bytes

  const ICON_ENTRY_SIZE: nat := 16

  const HEADER_SIZE: nat := 32

  const RT_ICON: U16 := 3

  const RT_GROUP_ICON: U16 := 14

  const MEMORY_FLAGS: U16 := 0x1010

  datatype IconImage = IconImage(width: Byte, height: Byte, colorCount: Byte, planes: U16, bitCount: U16, data: Bytes)

  datatype IconError =
    | TruncatedHeader | BadReserved(found: U16) | BadType(found: U16) | NoImages
    | TruncatedDirectory(expected: nat) | TruncatedImage(image: nat)
    | TooManyImages | ImageTooLarge

  // ---- little-endian fields

  function U16At(s: Bytes, at: nat): U16
    requires at + 2 <= |s|
  {
    Powers();
    FromLE(s[at..at + 2])
  }

  function U32At(s: Bytes, at: nat): U32
    requires at + 4 <= |s|
  {
    Powers();
    FromLE(s[at..at + 4])
  }

  function Le16(v: U16): (r: Bytes)
    ensures |r| == 2
  {
    ToLE(v, 2)
  }

  function Le32(v: U32): (r: Bytes)
    ensures |r| == 4
  {
    ToLE(v, 4)
  }

  lemma ReadsBack16(s: Bytes, at: nat, v: U16)
    requires at + 2 <= |s| && s[at..at + 2] == Le16(v)
    ensures U16At(s, at) == v
  {
    Powers();
    LERoundTrip(v, 2);
  }

  lemma ReadsBack32(s: Bytes, at: nat, v: U32)
    requires at + 4 <= |s| && s[at..at + 4] == Le32(v)
    ensures U32At(s, at) == v
  {
    Powers();
    LERoundTrip(v, 4);
  }

  // ---- parsing an icon

  function EntryAt(i: nat): nat { 6 + i * ICON_ENTRY_SIZE }

  /** The i-th image, if its data lies inside the file. */
  function ParseImage(icon: Bytes, i: nat): Result<IconImage, IconError>
    requires EntryAt(i + 1) <= |icon|
  {
    var e := EntryAt(i);
    var size, offset := U32At(icon, e + 8), U32At(icon, e + 12);
    if offset + size > |icon| then Err(TruncatedImage(i + 1))
    else Ok(IconImage(icon[e], icon[e + 1], icon[e + 2], U16At(icon, e + 4), U16At(icon, e + 6),
                      icon[offset..offset + size]))
  }

  /** The first n images; the first that is truncated fails them all. */
  function ParseImages(icon: Bytes, n: nat): Result<seq<IconImage>, IconError>
    requires EntryAt(n) <= |icon|
  {
    if n == 0 then Ok([])
    else
      var before :- ParseImages(icon, n - 1);
      var image :- ParseImage(icon, n - 1);
      Ok(before + [image])
  }

  function ParseIcon(icon: Bytes): Result<seq<IconImage>, IconError> {
    if |icon| < 6 then Err(TruncatedHeader)
    else if U16At(icon, 0) != 0 then Err(BadReserved(U16At(icon, 0)))
    else if U16At(icon, 2) != 1 then Err(BadType(U16At(icon, 2)))
    else
      var count := U16At(icon, 4);
      if count == 0 then Err(NoImages)
      else if |icon| < EntryAt(count) then Err(TruncatedDirectory(EntryAt(count)))
      else ParseImages(icon, count)
  }

  // ---- writing resources

  function Header(size: U32, kind: U16, id: U16, flags: U16): (r: Bytes)
    ensures |r| == HEADER_SIZE
  {
    Le32(size) + Le32(HEADER_SIZE) + Le16(0xFFFF) + Le16(kind) + Le16(0xFFFF) + Le16(id)
    + Le32(0) + Le16(flags) + Le16(0) + Le32(0) + Le32(0)
  }

  function RoundUp4(n: nat): (r: nat)
    ensures n <= r < n + 4 && r % 4 == 0
  {
    if n % 4 == 0 then n else n + (4 - n % 4)
  }

  function Zeros(n: nat): (r: Bytes)
    ensures |r| == n && forall i :: 0 <= i < n ==> r[i] == 0
  {
    if n == 0 then [] else Zeros(n - 1) + [0]
  }

  predicate Fits32(data: Bytes) { |data| < 0x1_0000_0000 }

  function Resource(kind: U16, id: U16, data: Bytes): (r: Bytes)
    requires Fits32(data)
    ensures |r| == HEADER_SIZE + RoundUp4(|data|)
  {
    Header(|data|, kind, id, MEMORY_FLAGS) + data + Zeros(RoundUp4(|data|) - |data|)
  }

  function GroupEntry(image: IconImage, id: U16): (r: Bytes)
    requires Fits32(image.data)
    ensures |r| == 14
  {
    [image.width, image.height, image.colorCount, 0] + Le16(image.planes) + Le16(image.bitCount) + Le32(|image.data|)
      + Le16(id)
  }

  predicate Writable(images: seq<IconImage>) {
    |images| < 0x1_0000 && forall i :: 0 <= i < |images| ==> Fits32(images[i].data)
  }

  function GroupEntries(images: seq<IconImage>, n: nat): (r: Bytes)
    requires Writable(images) && n <= |images|
    ensures |r| == 14 * n
  {
    if n == 0 then [] else GroupEntries(images, n - 1) + GroupEntry(images[n - 1], n)
  }

  function GroupIcon(images: seq<IconImage>): (r: Bytes)
    requires Writable(images)
    ensures |r| == 6 + 14 * |images|
  {
    Le16(0) + Le16(1) + Le16(|images|) + GroupEntries(images, |images|)
  }

  function ImageResources(images: seq<IconImage>, n: nat): Bytes
    requires Writable(images) && n <= |images|
  {
    if n == 0 then [] else ImageResources(images, n - 1) + Resource(RT_ICON, n, images[n - 1].data)
  }

  function ResourceFile(images: seq<IconImage>): Bytes
    requires Writable(images)
  {
    Header(0, 0, 0, 0) + ImageResources(images, |images|) + Resource(RT_GROUP_ICON, 1, GroupIcon(images))
  }

  /** The conversion with the checks the program makes on the way. */
  function IconToRes(icon: Bytes): Result<Bytes, IconError> {
    var images :- ParseIcon(icon);
    if |images| >= 0x1_0000 then Err(TooManyImages)
    else if exists i :: 0 <= i < |images| && !Fits32(images[i].data) then Err(ImageTooLarge)
    else Ok(ResourceFile(images))
  }

  lemma {:induction false} ParsedImagesFit(icon: Bytes, n: nat)
    requires EntryAt(n) <= |icon| && ParseImages(icon, n).Ok?
    ensures var images := ParseImages(icon, n).value;
            |images| == n && forall i :: 0 <= i < n ==> Fits32(images[i].data) && ParseImage(icon, i) == Ok(images[i])
  {
    hide U32At, U16At;
    if n > 0 {
      ParsedImagesFit(icon, n - 1);
    }
  }

  /** Any icon that parses converts: the later size checks never fail. */
  lemma ConvertsIffParses(icon: Bytes)
    ensures IconToRes(icon).Ok? <==> ParseIcon(icon).Ok?
    ensures ParseIcon(icon).Ok? ==>
              && Writable(ParseIcon(icon).value) && ParseIcon(icon).value != []
              && IconToRes(icon) == Ok(ResourceFile(ParseIcon(icon).value))
    ensures ParseIcon(icon).Err? ==> IconToRes(icon) == Err(ParseIcon(icon).error)
  {
    hide ParseImages, ResourceFile, FromLE;
    if ParseIcon(icon).Ok? {
      ParsedImagesFit(icon, U16At(icon, 4));
    }
  }

  // ---- reading a resource file

  datatype ResRecord = ResRecord(at: nat, kind: U16, id: U16, flags: U16, data: Bytes)

  /** The record at an offset: its own header says how far the header and the data reach. */
  function RecordAt(s: Bytes, at: nat): Option<(ResRecord, nat)> {
    if at + HEADER_SIZE > |s| then None
    else
      var size, header := U32At(s, at), U32At(s, at + 4);
      var next := at + header + RoundUp4(size);
      if header < HEADER_SIZE || next > |s| then None
      else Some((ResRecord(at, U16At(s, at + 10), U16At(s, at + 14), U16At(s, at + 20),
                           s[at + header..at + header + size]), next))
  }

  function Walk(s: Bytes, at: nat): Option<seq<ResRecord>>
    requires at <= |s|
    decreases |s| - at
  {
    if at == |s| then Some([])
    else
      var r := RecordAt(s, at);
      if r.None? then None
      else
        var rest := Walk(s, r.value.1);
        if rest.None? then None else Some([r.value.0] + rest.value)
  }

  lemma HeaderReads(s: Bytes, at: nat, size: U32, kind: U16, id: U16, flags: U16)
    requires at + HEADER_SIZE <= |s| && s[at..at + HEADER_SIZE] == Header(size, kind, id, flags)
    ensures U32At(s, at) == size && U32At(s, at + 4) == HEADER_SIZE
    ensures U16At(s, at + 10) == kind && U16At(s, at + 14) == id && U16At(s, at + 20) == flags
  {
    hide Le16, Le32, U16At, U32At;
    var h := Header(size, kind, id, flags);
    assert h[0..4] == Le32(size) && h[4..8] == Le32(HEADER_SIZE);
    assert h[10..12] == Le16(kind) && h[14..16] == Le16(id) && h[20..22] == Le16(flags);
    Window(s, at, h, 0, 4);
    Window(s, at, h, 4, 8);
    Window(s, at, h, 10, 12);
    Window(s, at, h, 14, 16);
    Window(s, at, h, 20, 22);
    ReadsBack32(s, at, size);
    ReadsBack32(s, at + 4, HEADER_SIZE);
    ReadsBack16(s, at + 10, kind);
    ReadsBack16(s, at + 14, id);
    ReadsBack16(s, at + 20, flags);
  }

  lemma Window(s: Bytes, at: nat, h: Bytes, i: nat, j: nat)
    requires at + |h| <= |s| && s[at..at + |h|] == h && i <= j <= |h|
    ensures s[at + i..at + j] == h[i..j]
  {
    forall k | 0 <= k < j - i ensures s[at + i..at + j][k] == h[i..j][k] {
      var m := i + k;
      assert s[at..at + |h|][m] == s[at + m];
    }
  }

  lemma ResourceReads(s: Bytes, at: nat, kind: U16, id: U16, data: Bytes)
    requires Fits32(data)
    requires at + |Resource(kind, id, data)| <= |s|
    requires s[at..at + |Resource(kind, id, data)|] == Resource(kind, id, data)
    ensures RecordAt(s, at) == Some((ResRecord(at, kind, id, MEMORY_FLAGS, data), at + |Resource(kind, id, data)|))
  {
    hide Header, U16At, U32At;
    var r := Resource(kind, id, data);
    assert r[0..HEADER_SIZE] == Header(|data|, kind, id, MEMORY_FLAGS);
    assert r[HEADER_SIZE..HEADER_SIZE + |data|] == data;
    Window(s, at, r, 0, HEADER_SIZE);
    Window(s, at, r, HEADER_SIZE, HEADER_SIZE + |data|);
    HeaderReads(s, at, |data|, kind, id, MEMORY_FLAGS);
  }

  // ---- walking what was written

  /** Where the n-th image's record starts. */
  function StartOf(images: seq<IconImage>, n: nat): nat
    requires Writable(images) && n <= |images|
  {
    HEADER_SIZE + |ImageResources(images, n)|
  }

  function ImageRecord(images: seq<IconImage>, n: nat): ResRecord
    requires Writable(images) && n < |images|
  {
    ResRecord(StartOf(images, n), RT_ICON, n + 1, MEMORY_FLAGS, images[n].data)
  }

  function GroupRecord(images: seq<IconImage>): ResRecord
    requires Writable(images)
  {
    ResRecord(StartOf(images, |images|), RT_GROUP_ICON, 1, MEMORY_FLAGS, GroupIcon(images))
  }

  /** The image records from the n-th on, then the group. */
  function RecordsFrom(images: seq<IconImage>, n: nat): seq<ResRecord>
    requires Writable(images) && n <= |images|
    decreases |images| - n
  {
    if n == |images| then [GroupRecord(images)] else [ImageRecord(images, n)] + RecordsFrom(images, n + 1)
  }

  lemma {:induction false} ImageResourcesPrefix(images: seq<IconImage>, n: nat, m: nat)
    requires Writable(images) && n <= m <= |images|
    ensures ImageResources(images, n) <= ImageResources(images, m)
    decreases m
  {
    hide Resource;
    if n < m {
      ImageResourcesPrefix(images, n, m - 1);
    }
  }

  lemma ImageResourceAt(images: seq<IconImage>, n: nat)
    requires Writable(images) && n < |images|
    ensures var s := ResourceFile(images);
            var r := Resource(RT_ICON, n + 1, images[n].data);
            var at := StartOf(images, n);
            at + |r| == StartOf(images, n + 1) <= |s| && s[at..at + |r|] == r
  {
    hide Resource, Header, GroupIcon;
    var s := ResourceFile(images);
    var r := Resource(RT_ICON, n + 1, images[n].data);
    var a, b := ImageResources(images, n), ImageResources(images, |images|);
    ImageResourcesPrefix(images, n + 1, |images|);
    assert ImageResources(images, n + 1) == a + r;
    assert b[|a|..|a| + |r|] == r;
    Window(s, HEADER_SIZE, b, |a|, |a| + |r|);
  }

  lemma {:induction false} StartsAreAligned(images: seq<IconImage>, n: nat)
    requires Writable(images) && n <= |images|
    ensures StartOf(images, n) % 4 == 0
  {
    hide Resource;
    if n > 0 {
      StartsAreAligned(images, n - 1);
      ResourceLength(RT_ICON, n, images[n - 1].data);
    }
  }

  lemma ResourceLength(kind: U16, id: U16, data: Bytes)
    requires Fits32(data)
    ensures |Resource(kind, id, data)| % 4 == 0 && |Resource(kind, id, data)| >= HEADER_SIZE
  {
  }

  lemma GroupFits(images: seq<IconImage>)
    requires Writable(images)
    ensures Fits32(GroupIcon(images))
  {
    hide GroupIcon;
  }

  lemma {:induction false} WalkFrom(images: seq<IconImage>, n: nat)
    requires Writable(images) && n <= |images|
    ensures StartOf(images, n) <= |ResourceFile(images)|
    ensures Walk(ResourceFile(images), StartOf(images, n)) == Some(RecordsFrom(images, n))
    decreases |images| - n
  {
    hide RecordAt, Resource, ResourceFile, StartOf;
    var s := ResourceFile(images);
    if n == |images| {
      GroupAtTheEnd(images);
      assert Walk(s, |s|) == Some([]);
      WalkStep(s, StartOf(images, n));
      assert [GroupRecord(images)] + [] == [GroupRecord(images)];
    } else {
      ImageResourceAt(images, n);
      ResourceLength(RT_ICON, n + 1, images[n].data);
      WalkFrom(images, n + 1);
      ResourceReads(s, StartOf(images, n), RT_ICON, n + 1, images[n].data);
      WalkStep(s, StartOf(images, n));
    }
  }

  lemma GroupAtTheEnd(images: seq<IconImage>)
    requires Writable(images)
    ensures var s := ResourceFile(images);
            && StartOf(images, |images|) < |s|
            && RecordAt(s, StartOf(images, |images|)) == Some((GroupRecord(images), |s|))
  {
    hide RecordAt, Resource, ImageResources, GroupIcon;
    GroupFits(images);
    var s := ResourceFile(images);
    var at := StartOf(images, |images|);
    var group := Resource(RT_GROUP_ICON, 1, GroupIcon(images));
    ResourceLength(RT_GROUP_ICON, 1, GroupIcon(images));
    assert s[at..at + |group|] == group;
    ResourceReads(s, at, RT_GROUP_ICON, 1, GroupIcon(images));
  }

  /**
   Reading a converted icon back, record by record as its headers say, gives one empty
   record, every image under its number with its exact bytes, then the group, all on
   multiples of four.
   */
  lemma WalkReadsEveryRecord(icon: Bytes)
    requires IconToRes(icon).Ok?
    ensures ParseIcon(icon).Ok? && Writable(ParseIcon(icon).value)
    ensures var images := ParseIcon(icon).value;
            var records := Walk(IconToRes(icon).value, 0);
            && records == Some([ResRecord(0, 0, 0, 0, [])] + RecordsFrom(images, 0))
            && |records.value| == |images| + 2
            && (forall n :: 0 <= n < |images| ==>
                  records.value[n + 1] == ResRecord(records.value[n + 1].at, 3, n + 1, 0x1010, images[n].data))
            && records.value[|images| + 1] ==
                 ResRecord(records.value[|images| + 1].at, 14, 1, 0x1010, GroupIcon(images))
            && (forall k :: 0 <= k < |records.value| ==> records.value[k].at % 4 == 0)
  {
    hide RecordAt, ResourceFile, ParseIcon, Walk, RecordsFrom, IconToRes, StartOf;
    ConvertsIffParses(icon);
    var images := ParseIcon(icon).value;
    var s := ResourceFile(images);
    NullRecordFirst(images);
    WalkFrom(images, 0);
    WalkStep(s, 0);
    RecordsAt(images, 0);
    var rest := RecordsFrom(images, 0);
    var records := [ResRecord(0, 0, 0, 0, [])] + rest;
    forall n | 0 <= n < |images| ensures records[n + 1] == ImageRecord(images, n) {
      assert rest[n] == ImageRecord(images, 0 + n);
    }
    forall k | 0 <= k < |records| ensures records[k].at % 4 == 0 {
      if k > 0 {
        assert records[k] == rest[k - 1];
      }
    }
  }

  lemma WalkStep(s: Bytes, at: nat)
    requires at < |s| && RecordAt(s, at).Some? && Walk(s, RecordAt(s, at).value.1).Some?
    ensures Walk(s, at) == Some([RecordAt(s, at).value.0] + Walk(s, RecordAt(s, at).value.1).value)
  {
    hide RecordAt;
  }

  lemma NullRecordFirst(images: seq<IconImage>)
    requires Writable(images)
    ensures var s := ResourceFile(images);
            && HEADER_SIZE <= |s| && StartOf(images, 0) == HEADER_SIZE
            && RecordAt(s, 0) == Some((ResRecord(0, 0, 0, 0, []), HEADER_SIZE))
  {
    hide Header, U16At, U32At, Resource, GroupIcon;
    var s := ResourceFile(images);
    assert s[0..HEADER_SIZE] == Header(0, 0, 0, 0);
    HeaderReads(s, 0, 0, 0, 0, 0);
    assert s[HEADER_SIZE..HEADER_SIZE] == [];
    assert RoundUp4(0) == 0;
  }

  lemma {:induction false} RecordsAt(images: seq<IconImage>, n: nat)
    requires Writable(images) && n <= |images|
    ensures var r := RecordsFrom(images, n);
            && |r| == |images| - n + 1
            && (forall k :: 0 <= k < |images| - n ==> r[k] == ImageRecord(images, n + k))
            && r[|r| - 1] == GroupRecord(images)
            && forall k :: 0 <= k < |r| ==> r[k].at % 4 == 0
    decreases |images| - n
  {
    hide StartOf, GroupIcon;
    StartsAreAligned(images, n);
    var r := RecordsFrom(images, n);
    if n < |images| {
      RecordsAt(images, n + 1);
      var rest := RecordsFrom(images, n + 1);
      forall k | 0 <= k < |images| - n ensures r[k] == ImageRecord(images, n + k) {
        if k > 0 {
          assert r[k] == rest[k - 1] == ImageRecord(images, n + 1 + (k - 1));
        }
      }
    }
  }

  // ---- the group's directory

  datatype Entry = Entry(width: Byte, height: Byte, colorCount: Byte, planes: U16, bitCount: U16, size: U32, id: U16)

  function EntryOf(image: IconImage, id: U16): Entry
    requires Fits32(image.data)
  {
    Entry(image.width, image.height, image.colorCount, image.planes, image.bitCount, |image.data|, id)
  }

  /** Reads the i-th entry of a group of icons. */
  function GroupEntryAt(group: Bytes, i: nat): Entry
    requires 6 + 14 * (i + 1) <= |group|
  {
    var e := 6 + 14 * i;
    Entry(group[e], group[e + 1], group[e + 2], U16At(group, e + 4), U16At(group, e + 6), U32At(group, e + 8),
          U16At(group, e + 12))
  }

  lemma EntryReads(s: Bytes, i: nat, image: IconImage, id: U16)
    requires Fits32(image.data) && 6 + 14 * (i + 1) <= |s|
    requires s[6 + 14 * i..6 + 14 * i + 14] == GroupEntry(image, id)
    ensures GroupEntryAt(s, i) == EntryOf(image, id)
  {
    hide Le16, Le32, U16At, U32At;
    var e, at := GroupEntry(image, id), 6 + 14 * i;
    assert e[4..6] == Le16(image.planes) && e[6..8] == Le16(image.bitCount);
    assert e[8..12] == Le32(|image.data|) && e[12..14] == Le16(id);
    Window(s, at, e, 4, 6);
    Window(s, at, e, 6, 8);
    Window(s, at, e, 8, 12);
    Window(s, at, e, 12, 14);
    ReadsBack16(s, at + 4, image.planes);
    ReadsBack16(s, at + 6, image.bitCount);
    ReadsBack32(s, at + 8, |image.data|);
    ReadsBack16(s, at + 12, id);
    assert s[at] == s[at..at + 14][0] && s[at + 1] == s[at..at + 14][1] && s[at + 2] == s[at..at + 14][2];
  }

  lemma {:induction false} GroupEntriesPrefix(images: seq<IconImage>, n: nat, m: nat)
    requires Writable(images) && n <= m <= |images|
    ensures GroupEntries(images, n) <= GroupEntries(images, m)
    decreases m
  {
    hide GroupEntry;
    if n < m {
      GroupEntriesPrefix(images, n, m - 1);
    }
  }

  /** The group lists every image in order with its size and the id its own record carries. */
  lemma GroupListsEveryImage(images: seq<IconImage>, i: nat)
    requires Writable(images) && i < |images|
    ensures U16At(GroupIcon(images), 4) == |images|
    ensures GroupEntryAt(GroupIcon(images), i) == EntryOf(images[i], i + 1)
  {
    hide Le16, U16At, GroupEntry, GroupEntryAt;
    var g := GroupIcon(images);
    assert g[4..6] == Le16(|images|);
    ReadsBack16(g, 4, |images|);
    var all := GroupEntries(images, |images|);
    GroupEntriesPrefix(images, i + 1, |images|);
    assert all[14 * i..14 * i + 14] == GroupEntry(images[i], i + 1);
    assert g[6..6 + |all|] == all;
    Window(g, 6, all, 14 * i, 14 * i + 14);
    EntryReads(g, i, images[i], i + 1);
  }
}
