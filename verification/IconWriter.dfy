/**
 The conversion as the program runs it: a directory read in a loop and an output that grows by one
 record after the other, each padded to a multiple of four.
 */
module IconWriter {
  import opened Wrappers
  import opened Bytes
  import opened IconResource

  method ReadIcon(icon: Bytes) returns (r: Result<seq<IconImage>, IconError>)
    ensures r == ParseIcon(icon)
  {
    hide ParseImage, U16At;
    if |icon| < 6 {
      return Err(TruncatedHeader);
    }
    if U16At(icon, 0) != 0 {
      return Err(BadReserved(U16At(icon, 0)));
    }
    if U16At(icon, 2) != 1 {
      return Err(BadType(U16At(icon, 2)));
    }
    var count := U16At(icon, 4);
    if count == 0 {
      return Err(NoImages);
    }
    if |icon| < EntryAt(count) {
      return Err(TruncatedDirectory(EntryAt(count)));
    }
    var images: seq<IconImage> := [];
    var i := 0;
    while i < count
      invariant 0 <= i <= count
      invariant ParseImages(icon, i) == Ok(images)
    {
      var image := ParseImage(icon, i);
      if image.Err? {
        FirstFailure(icon, i, count);
        return Err(image.error);
      }
      images := images + [image.value];
      i := i + 1;
    }
    r := Ok(images);
  }

  lemma {:induction false} FirstFailure(icon: Bytes, i: nat, n: nat)
    requires i < n && EntryAt(n) <= |icon|
    requires ParseImages(icon, i).Ok? && ParseImage(icon, i).Err?
    ensures ParseImages(icon, n) == Err(ParseImage(icon, i).error)
    decreases n
  {
    hide ParseImage;
    if i + 1 < n {
      FirstFailure(icon, i, n - 1);
    }
  }

  class ResourceWriter {
    var output: Bytes

    constructor ()
      ensures output == []
    {
      output := [];
    }

    method WriteHeader(size: U32, kind: U16, id: U16, flags: U16)
      modifies this
      ensures output == old(output) + Header(size, kind, id, flags)
    {
      output := output + Header(size, kind, id, flags);
    }

    /** Pads the whole output to a multiple of four after the data. */
    method WriteResource(kind: U16, id: U16, data: Bytes)
      requires Fits32(data) && |output| % 4 == 0
      modifies this
      ensures output == old(output) + Resource(kind, id, data)
      ensures |output| % 4 == 0
    {
      hide Header;
      var start := output;
      WriteHeader(|data|, kind, id, MEMORY_FLAGS);
      output := output + data;
      ghost var unpadded := output;
      ghost var n := 0;
      ghost var padding := RoundUp4(|data|) - |data|;
      assert unpadded + Zeros(0) == unpadded;
      while |output| % 4 != 0
        invariant 0 <= n <= padding
        invariant output == unpadded + Zeros(n)
        invariant |output| == |start| + HEADER_SIZE + |data| + n
        decreases padding - n
      {
        output := output + [0];
        n := n + 1;
        assert unpadded + Zeros(n - 1) + [0] == unpadded + Zeros(n);
      }
      assert n == padding;
      Flat(start, Header(|data|, kind, id, MEMORY_FLAGS), data, Zeros(n));
    }
  }

  lemma Flat(a: Bytes, b: Bytes, c: Bytes, d: Bytes)
    ensures a + b + c + d == a + (b + c + d)
  {
  }

  method MakeGroupIcon(images: seq<IconImage>) returns (group: Bytes)
    requires Writable(images)
    ensures group == GroupIcon(images)
  {
    hide GroupEntry, Le16;
    group := Le16(0) + Le16(1) + Le16(|images|);
    ghost var header := group;
    var i := 0;
    assert header + [] == header;
    while i < |images|
      invariant 0 <= i <= |images|
      invariant group == header + GroupEntries(images, i)
    {
      assert header + GroupEntries(images, i) + GroupEntry(images[i], i + 1)
          == header + (GroupEntries(images, i) + GroupEntry(images[i], i + 1));
      group := group + GroupEntry(images[i], i + 1);
      i := i + 1;
    }
  }

  method Convert(icon: Bytes) returns (r: Result<Bytes, IconError>)
    ensures r == IconToRes(icon)
  {
    hide ParseIcon, Resource, Header, GroupIcon, IconToRes;
    ConvertsIffParses(icon);
    var images :- ReadIcon(icon);
    var writer := new ResourceWriter();
    writer.WriteHeader(0, 0, 0, 0);
    ghost var first := writer.output;
    assert first == Header(0, 0, 0, 0) && first + [] == first;
    var i := 0;
    while i < |images|
      invariant 0 <= i <= |images|
      invariant writer.output == first + ImageResources(images, i) && |writer.output| % 4 == 0
    {
      writer.WriteResource(RT_ICON, i + 1, images[i].data);
      assert first + ImageResources(images, i) + Resource(RT_ICON, i + 1, images[i].data)
          == first + (ImageResources(images, i) + Resource(RT_ICON, i + 1, images[i].data));
      i := i + 1;
    }
    var group := MakeGroupIcon(images);
    GroupFits(images);
    writer.WriteResource(RT_GROUP_ICON, 1, group);
    r := Ok(writer.output);
  }
}
