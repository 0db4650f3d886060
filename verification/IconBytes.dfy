/** The conversion byte by byte: which icons are accepted, what is copied from them, and what the headers hold. */
module IconBytes {
  import opened Wrappers
  import opened Bytes
  import opened IconResource

  /** A two-byte number at an offset, low byte first. */
  function Low16(s: Bytes, at: nat): nat
    requires at + 2 <= |s|
  {
    (s[at] as int) + 0x100 * (s[at + 1] as int)
  }

  function Low32(s: Bytes, at: nat): nat
    requires at + 4 <= |s|
  {
    (s[at] as int) + 0x100 * (s[at + 1] as int) + 0x1_0000 * (s[at + 2] as int) + 0x100_0000 * (s[at + 3] as int)
  }

  lemma FromTwo(s: Bytes)
    requires |s| == 2
    ensures FromLE(s) == Low16(s, 0)
  {
    assert s[1..][1..] == [];
    assert FromLE(s[1..]) == s[1];
  }

  lemma FromFour(s: Bytes)
    requires |s| == 4
    ensures FromLE(s) == Low32(s, 0)
  {
    FromTwo(s[2..]);
    assert s[1..][1..] == s[2..];
    assert FromLE(s[1..]) == (s[1] as int) + 0x100 * FromLE(s[2..]);
  }

  lemma ReadsLow(s: Bytes, at: nat)
    ensures at + 2 <= |s| ==> U16At(s, at) == Low16(s, at)
    ensures at + 4 <= |s| ==> U32At(s, at) == Low32(s, at)
  {
    if at + 2 <= |s| {
      FromTwo(s[at..at + 2]);
    }
    if at + 4 <= |s| {
      FromFour(s[at..at + 4]);
    }
  }

  /** The i-th directory entry names data inside the file. */
  predicate EntryHolds(icon: Bytes, i: nat) {
    22 + 16 * i <= |icon| && Low32(icon, 18 + 16 * i) + Low32(icon, 14 + 16 * i) <= |icon|
  }

  lemma ImageIff(icon: Bytes, i: nat)
    requires EntryAt(i + 1) <= |icon|
    ensures U32At(icon, EntryAt(i) + 8) == Low32(icon, 14 + 16 * i)
    ensures U32At(icon, EntryAt(i) + 12) == Low32(icon, 18 + 16 * i)
    ensures ParseImage(icon, i).Ok? <==> EntryHolds(icon, i)
  {
    hide U16At, U32At, Low32;
    var e := EntryAt(i);
    assert e + 8 == 14 + 16 * i && e + 12 == 18 + 16 * i;
    ReadsLow(icon, e + 8);
    ReadsLow(icon, e + 12);
  }

  lemma {:induction false} ImagesIff(icon: Bytes, n: nat)
    requires EntryAt(n) <= |icon|
    ensures ParseImages(icon, n).Ok? <==> forall i :: 0 <= i < n ==> EntryHolds(icon, i)
  {
    hide ParseImage, EntryHolds;
    if n > 0 {
      ImagesIff(icon, n - 1);
      ImageIff(icon, n - 1);
    }
  }

  /**
   An icon is accepted exactly when it starts with 0, 0, 1, 0, counts at least one image, holds a
   16-byte entry for each, and each entry's data.
   */
  lemma ParsesIff(icon: Bytes)
    ensures ParseIcon(icon).Ok? <==>
              && |icon| >= 6 && icon[0] == 0 && icon[1] == 0 && icon[2] == 1 && icon[3] == 0
              && var count := Low16(icon, 4);
                 count >= 1 && 6 + 16 * count <= |icon| && forall i :: 0 <= i < count ==> EntryHolds(icon, i)
  {
    hide U16At, EntryHolds;
    if |icon| >= 6 {
      ReadsLow(icon, 0);
      ReadsLow(icon, 2);
      ReadsLow(icon, 4);
      var count := Low16(icon, 4);
      if 6 + 16 * count <= |icon| {
        ImagesIff(icon, count);
      }
    }
  }

  predicate FirstMissing(icon: Bytes, i: nat) {
    !EntryHolds(icon, i) && forall k :: 0 <= k < i ==> EntryHolds(icon, k)
  }

  lemma ImageRefused(icon: Bytes, i: nat)
    requires EntryAt(i + 1) <= |icon|
    ensures !EntryHolds(icon, i) ==> ParseImage(icon, i) == Err(TruncatedImage(i + 1))
  {
    hide U16At, U32At, Low32;
    ImageIff(icon, i);
  }

  /** The first image whose data is missing is named, counted from one. */
  lemma {:induction false} ImagesRefused(icon: Bytes, n: nat, i: nat)
    requires EntryAt(n) <= |icon| && i < n && FirstMissing(icon, i)
    ensures ParseImages(icon, n) == Err(TruncatedImage(i + 1))
    decreases n
  {
    hide ParseImage, EntryHolds;
    if i < n - 1 {
      ImagesRefused(icon, n - 1, i);
    } else {
      ImagesIff(icon, n - 1);
      ImageRefused(icon, i);
    }
  }

  /** Which refusal a bad icon gets, and with what numbers: the first thing wrong with it. */
  lemma RefusalNames(icon: Bytes)
    ensures |icon| < 6 ==> ParseIcon(icon) == Err(TruncatedHeader)
    ensures |icon| >= 6 && Low16(icon, 0) != 0 ==> ParseIcon(icon) == Err(BadReserved(Low16(icon, 0)))
    ensures |icon| >= 6 && Low16(icon, 0) == 0 && Low16(icon, 2) != 1 ==>
              ParseIcon(icon) == Err(BadType(Low16(icon, 2)))
    ensures |icon| >= 6 && Low16(icon, 0) == 0 && Low16(icon, 2) == 1 ==>
              var count := Low16(icon, 4);
              && (count == 0 ==> ParseIcon(icon) == Err(NoImages))
              && (count > 0 && |icon| < 6 + 16 * count ==>
                    ParseIcon(icon) == Err(TruncatedDirectory(6 + 16 * count)))
              && (6 + 16 * count <= |icon| ==> forall i :: 0 <= i < count && FirstMissing(icon, i) ==>
                    ParseIcon(icon) == Err(TruncatedImage(i + 1)))
  {
    hide U16At, FirstMissing, ParseImages, Low16;
    if |icon| >= 6 {
      ReadsLow(icon, 0);
      ReadsLow(icon, 2);
      ReadsLow(icon, 4);
      var count := Low16(icon, 4);
      forall i | 0 <= i < count && 6 + 16 * count <= |icon| && FirstMissing(icon, i)
        ensures ParseImages(icon, count) == Err(TruncatedImage(i + 1))
      {
        ImagesRefused(icon, count, i);
      }
    }
  }

  /** Each image's data is the bytes its entry names, all of them and nothing else. */
  lemma DataIsCopied(icon: Bytes, i: nat)
    requires ParseIcon(icon).Ok? && i < |ParseIcon(icon).value|
    ensures EntryHolds(icon, i)
    ensures var size, offset := Low32(icon, 14 + 16 * i), Low32(icon, 18 + 16 * i);
            ParseIcon(icon).value[i].data == icon[offset..offset + size]
  {
    hide U16At, U32At, Low32, ParseImages;
    ParsedImagesFit(icon, U16At(icon, 4));
    ImageIff(icon, i);
  }

  lemma Printed16(s: Bytes, at: nat)
    requires at + 2 <= |s|
    ensures Le16(U16At(s, at)) == s[at..at + 2]
  {
    LEUnique(s[at..at + 2]);
  }

  lemma Printed32(s: Bytes, at: nat)
    requires at + 4 <= |s|
    ensures Le32(U32At(s, at)) == s[at..at + 4]
  {
    LEUnique(s[at..at + 4]);
  }

  lemma PrintedNumber(n: U16)
    ensures Le16(n) == [n % 0x100, n / 0x100]
  {
    assert n / 0x100 < 0x100;
    assert ToLE(n / 0x100, 1) == [n / 0x100 % 0x100] + ToLE(n / 0x100 / 0x100, 0);
  }

  lemma SizeIs(icon: Bytes, i: nat)
    requires ParseIcon(icon).Ok? && i < |ParseIcon(icon).value|
    ensures 22 + 16 * i <= |icon|
    ensures var image, e := ParseIcon(icon).value[i], 6 + 16 * i;
            && Fits32(image.data)
            && image.width == icon[e] && image.height == icon[e + 1] && image.colorCount == icon[e + 2]
            && image.planes == U16At(icon, e + 4) && image.bitCount == U16At(icon, e + 6)
            && |image.data| == U32At(icon, e + 8)
  {
    hide U16At, U32At, ParseImages;
    ParsedImagesFit(icon, U16At(icon, 4));
  }

  /**
   The group's entry for an image is the first twelve bytes of its directory entry, with the
   reserved fourth byte cleared, then its number instead of the offset.
   */
  lemma GroupCopiesDirectory(icon: Bytes, i: nat)
    requires ParseIcon(icon).Ok? && i < |ParseIcon(icon).value|
    ensures Writable(ParseIcon(icon).value) && 22 + 16 * i <= |icon|
    ensures var g, at, e := GroupIcon(ParseIcon(icon).value), 6 + 14 * i, 6 + 16 * i;
            && g[at..at + 3] == icon[e..e + 3] && g[at + 3] == 0
            && g[at + 4..at + 12] == icon[e + 4..e + 12]
            && g[at + 12..at + 14] == [(i + 1) % 0x100, (i + 1) / 0x100]
  {
    hide Le16, Le32, U16At, U32At, ParseIcon, GroupIcon, GroupEntries;
    ConvertsIffParses(icon);
    SizeIs(icon, i);
    var images, e := ParseIcon(icon).value, 6 + 16 * i;
    var image := images[i];
    var entry := GroupEntry(image, i + 1);
    Printed16(icon, e + 4);
    Printed16(icon, e + 6);
    Printed32(icon, e + 8);
    PrintedNumber(i + 1);
    assert entry[0..3] == icon[e..e + 3] && entry[3] == 0;
    assert entry[4..12] == icon[e + 4..e + 6] + icon[e + 6..e + 8] + icon[e + 8..e + 12];
    assert entry[4..12] == icon[e + 4..e + 12];
    assert entry[12..14] == Le16(i + 1);
    EntryInGroup(images, i);
    var g, at := GroupIcon(images), 6 + 14 * i;
    Window(g, at, entry, 0, 3);
    Window(g, at, entry, 4, 12);
    Window(g, at, entry, 12, 14);
    assert g[at + 3] == g[at..at + 14][3];
  }

  lemma EntryInGroup(images: seq<IconImage>, i: nat)
    requires Writable(images) && i < |images|
    ensures var g, at := GroupIcon(images), 6 + 14 * i; g[at..at + 14] == GroupEntry(images[i], i + 1)
  {
    hide Le16, GroupEntry;
    var g, all := GroupIcon(images), GroupEntries(images, |images|);
    GroupEntriesPrefix(images, i + 1, |images|);
    assert all[14 * i..14 * i + 14] == GroupEntry(images[i], i + 1);
    assert g[6..6 + |all|] == all;
    Window(g, 6, all, 14 * i, 14 * i + 14);
  }

  /** The group starts like an icon directory: 0, 0, 1, 0 and the number of images. */
  lemma GroupHead(images: seq<IconImage>)
    requires Writable(images)
    ensures GroupIcon(images)[..6] == [0, 0, 1, 0, |images| % 0x100, |images| / 0x100]
  {
    hide GroupEntries;
    PrintedNumber(0);
    PrintedNumber(1);
    PrintedNumber(|images|);
  }

  /** A record's header: sizes, a numbered type and id, and the flags; every other byte is zero. */
  lemma HeaderLayout(size: U32, kind: U16, id: U16, flags: U16)
    ensures var h := Header(size, kind, id, flags);
            && h[0..4] == Le32(size) && h[4..8] == [32, 0, 0, 0]
            && h[8..12] == [255, 255] + Le16(kind) && h[12..16] == [255, 255] + Le16(id)
            && h[16..20] == [0, 0, 0, 0] && h[20..22] == Le16(flags)
            && h[22..32] == [0, 0, 0, 0, 0, 0, 0, 0, 0, 0]
  {
    hide Le16, Le32;
    PrintedNumber(0);
    PrintedNumber(0xFFFF);
    Zero32();
    HeaderLength();
  }

  lemma Zero32()
    ensures Le32(0) == [0, 0, 0, 0]
  {
    assert ToLE(0, 3) == [0, 0, 0] by {
      assert ToLE(0, 2) == [0, 0];
    }
  }

  lemma HeaderLength()
    ensures Le32(HEADER_SIZE) == [32, 0, 0, 0]
  {
    assert ToLE(0, 3) == [0, 0, 0] by {
      assert ToLE(0, 2) == [0, 0];
    }
    assert HEADER_SIZE == 32;
  }
}
