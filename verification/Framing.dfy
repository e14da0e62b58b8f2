// Length-prefixed byte strings of internal/codec.
module Framing {
  import opened Bytes
  import opened Varint

  // A Go slice is never longer than this.
  type Buffer = bs: seq<byte> | |bs| <= 0x7fff_ffff_ffff_ffff

  function Frame(item: seq<byte>): seq<byte> {
    Encoded(|item|) + item
  }

  method AppendBytes(dst: seq<byte>, item: Buffer) returns (out: seq<byte>)
    ensures out == dst + Frame(item)
  {
    out := AppendUvarint(dst, |item|);
    out := out + item;
  }

  // What reading one frame from the front of src gives: the bytes framed and the number of bytes consumed.
  ghost function ReadFrame(src: seq<byte>): Read<seq<byte>> {
    match ReadUvarint(src)
    case Failed(why) => Failed(why)
    case Value(n, hdr) => if hdr + n <= |src| then Value(src[hdr..hdr + n], hdr + n) else Failed(Truncated)
  }

  method BytesRef(src: Buffer) returns (r: Read<seq<byte>>)
    ensures r == ReadFrame(src)
  {
    RereadIsCanonical(src);
    var u := Uvarint(src);
    match u
    case Failed(why) =>
      return Failed(why);
    case Value(n, hdr) =>
      if n > |src| {
        return Failed(Truncated);
      }
      var end := hdr + n;
      if end > |src| || end < hdr {
        return Failed(Truncated);
      }
      return Value(src[hdr..end], end);
  }

  lemma FrameRoundTrip(item: Buffer, rest: seq<byte>)
    ensures ReadFrame(Frame(item) + rest) == Value(item, |Frame(item)|)
  {
    assert Frame(item) + rest == Encoded(|item|) + (item + rest);
    UvarintRoundTrip(|item|, item + rest);
  }

  // A frame that is cut off anywhere, in its header or after it, is no frame.
  lemma FrameCut(item: Buffer, cut: nat)
    requires cut < |Frame(item)|
    ensures ReadFrame(Frame(item)[..cut]) == Failed(Truncated)
  {
    hide Encoded, Leading, Spelled;
    var bs := Encoded(|item|);
    if cut < |bs| {
      assert Frame(item)[..cut] == bs[..cut];
      EncodedCut(|item|, cut);
    } else {
      assert Frame(item)[..cut] == bs + item[..cut - |bs|];
      UvarintRoundTrip(|item|, item[..cut - |bs|]);
    }
  }

  // What is read is what the header says: as many bytes as it spells, right behind it, and all of them there.
  lemma FrameMeans(src: Buffer, item: seq<byte>, n: nat)
    ensures ReadFrame(src) == Value(item, n) <==>
            && |item| < n <= |src| && item == src[n - |item|..n]
            && IsVarint(src[..n - |item|]) && Spelled(src[..n - |item|]) == |item|
  {
    hide Leading, Spelled;
    if |item| < n <= |src| {
      ReadMeans(src, |item|, n - |item|);
    }
    if ReadFrame(src).Value? {
      var u := ReadUvarint(src);
      ReadMeans(src, u.value, u.n);
    }
  }

  // A frame that cannot be read is cut off, or its header has more than 64 bits.
  lemma FrameFails(src: Buffer)
    ensures ReadFrame(src) == Failed(Overflow) <==>
            |src| >= 10 && src[9] > 1 && forall j :: 0 <= j < 9 ==> src[j] >= 128
  {
    hide Spelled;
    RereadIsCanonical(src);
  }

  // Items one after the other.
  ghost function Stream(items: seq<Buffer>): seq<byte> {
    if items == [] then [] else Frame(items[0]) + Stream(items[1..])
  }

  datatype Parsed = Parsed(items: seq<seq<byte>>, rest: seq<byte>) | Broken(why: Failure)

  // Reading count frames in a row.
  ghost function ReadFrames(src: seq<byte>, count: nat): Parsed {
    if count == 0 then Parsed([], src) else
      match ReadFrame(src)
      case Failed(why) => Broken(why)
      case Value(item, n) =>
        match ReadFrames(src[n..], count - 1)
        case Broken(why) => Broken(why)
        case Parsed(items, rest) => Parsed([item] + items, rest)
  }

  // Any items, appended one after the other, are read back one by one, and nothing after them is touched.
  lemma {:induction false} StreamRoundTrip(items: seq<Buffer>, rest: seq<byte>)
    ensures ReadFrames(Stream(items) + rest, |items|) == Parsed(items, rest)
  {
    if items == [] {
      assert Stream(items) + rest == rest;
    } else {
      var tail := Stream(items[1..]) + rest;
      assert Stream(items) + rest == Frame(items[0]) + tail;
      FrameRoundTrip(items[0], tail);
      StreamRoundTrip(items[1..], rest);
      assert (Frame(items[0]) + tail)[|Frame(items[0])|..] == tail;
      assert items == [items[0]] + items[1..];
    }
  }

  // A stream that is cut off anywhere breaks on the first frame it no longer holds.
  lemma {:induction false} StreamCut(items: seq<Buffer>, cut: nat)
    requires cut < |Stream(items)|
    ensures ReadFrames(Stream(items)[..cut], |items|) == Broken(Truncated)
  {
    var head, tail := Frame(items[0]), Stream(items[1..]);
    if cut < |head| {
      assert Stream(items)[..cut] == head[..cut];
      FrameCut(items[0], cut);
    } else {
      var rest := tail[..cut - |head|];
      assert Stream(items)[..cut] == head + rest;
      FrameRoundTrip(items[0], rest);
      StreamCut(items[1..], cut - |head|);
      assert (head + rest)[|head|..] == rest;
    }
  }
}
