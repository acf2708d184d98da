/**
 Framing of Cap'n Proto messages as in the section "Serialization Over a Stream" of the Cap'n Proto
 encoding specification: a segment table, padded to a whole word, followed by the segments.

 Memory is a sequence of 32-bit halves; a word is two of them, low half first.
 */
module Framing {
  import opened Sequences

  type Half = n: int | 0 <= n < 0x1_0000_0000

  datatype Word = Word(lo: Half, hi: Half)

  type Segment = seq<Word>

  function Truncate(n: nat): Half
  {
    n % 0x1_0000_0000
  }

  function Halves(s: Segment): seq<Half>
  {
    if s == [] then [] else [s[0].lo, s[0].hi] + Halves(s[1..])
  }

  function Body(segments: seq<Segment>): seq<Half>
  {
    if segments == [] then [] else Halves(segments[0]) + Body(segments[1..])
  }

  function Sizes(segments: seq<Segment>): seq<Half>
  {
    if segments == [] then [] else [Truncate(|segments[0]|)] + Sizes(segments[1..])
  }

  function Padding(n: nat): seq<Half>
  {
    if n % 2 == 0 then [0] else []
  }

  /** The segment count less one, the sizes, and padding to a whole word. */
  function Table(segments: seq<Segment>): seq<Half>
    requires segments != []
  {
    [Truncate(|segments| - 1)] + Sizes(segments) + Padding(|segments|)
  }

  function Encode(segments: seq<Segment>): seq<Half>
    requires segments != []
  {
    Table(segments) + Body(segments)
  }

  function TotalWords(segments: seq<Segment>): nat
  {
    if segments == [] then 0 else |segments[0]| + TotalWords(segments[1..])
  }

  function HeaderHalves(n: nat): nat
  {
    2 * (n / 2 + 1)
  }

  // ---------------------------------------------------------------- reading a stream by the specification

  datatype Decoded = Malformed | Message(segments: seq<Segment>, rest: seq<Half>)

  function Words(h: seq<Half>, count: nat): Segment
    requires 2 * count <= |h|
  {
    if count == 0 then [] else [Word(h[0], h[1])] + Words(h[2..], count - 1)
  }

  function DecodeBody(sizes: seq<Half>, h: seq<Half>): Decoded
  {
    if sizes == [] then Message([], h)
    else
      var size: nat := sizes[0] as int;
      if |h| < 2 * size then Malformed
      else
        var others := DecodeBody(sizes[1..], h[2 * size..]);
        if others.Malformed? then Malformed
        else Message([Words(h, size)] + others.segments, others.rest)
  }

  /** One message from the front of a stream, and what follows it. */
  function Decode(h: seq<Half>): Decoded
  {
    if h == [] then Malformed
    else
      var n: nat := (h[0] as int) + 1;
      if |h| < HeaderHalves(n) then Malformed else DecodeBody(h[1..n + 1], h[HeaderHalves(n)..])
  }

  // ---------------------------------------------------------------- sizes

  lemma {:induction false} HalvesLength(s: Segment)
    ensures |Halves(s)| == 2 * |s|
  {
    if s != [] {
      HalvesLength(s[1..]);
    }
  }

  lemma {:induction false} BodyLength(segments: seq<Segment>)
    ensures |Body(segments)| == 2 * TotalWords(segments)
  {
    if segments != [] {
      HalvesLength(segments[0]);
      BodyLength(segments[1..]);
    }
  }

  lemma {:induction false} SizesAt(segments: seq<Segment>)
    ensures |Sizes(segments)| == |segments|
    ensures forall i :: 0 <= i < |segments| ==> Sizes(segments)[i] == Truncate(|segments[i]|)
  {
    if segments != [] {
      SizesAt(segments[1..]);
    }
  }

  /** The header takes n / 2 + 1 words, and the message as many words more as its segments have. */
  lemma EncodedLength(segments: seq<Segment>)
    requires segments != []
    ensures |Table(segments)| == 2 * (|segments| / 2 + 1)
    ensures |Encode(segments)| == 2 * (|segments| / 2 + 1 + TotalWords(segments))
  {
    hide *;
    SizesAt(segments);
    BodyLength(segments);
    EncodeIs(segments);
    TableLength(segments);
  }

  lemma TableLength(segments: seq<Segment>)
    requires segments != [] && |Sizes(segments)| == |segments|
    ensures |Table(segments)| == 2 * (|segments| / 2 + 1)
  {
    hide Sizes;
  }

  // ---------------------------------------------------------------- the round trip

  predicate Fits(segments: seq<Segment>)
  {
    1 <= |segments| <= 0x1_0000_0000 && forall s :: s in segments ==> |s| < 0x1_0000_0000
  }

  lemma {:induction false} WordsOfHalves(s: Segment, rest: seq<Half>)
    ensures |Halves(s)| == 2 * |s| && Words(Halves(s) + rest, |s|) == s
  {
    HalvesLength(s);
    if s != [] {
      WordsOfHalves(s[1..], rest);
      assert (Halves(s) + rest)[2..] == Halves(s[1..]) + rest;
    }
  }

  lemma BodyStep(segments: seq<Segment>, rest: seq<Half>)
    requires segments != []
    ensures Body(segments) + rest == Halves(segments[0]) + (Body(segments[1..]) + rest)
    ensures Sizes(segments) == [Truncate(|segments[0]|)] + Sizes(segments[1..])
  {
  }

  lemma DecodeBodyStep(size: Half, sizes: seq<Half>, front: seq<Half>, h: seq<Half>)
    requires |front| == 2 * (size as int) && DecodeBody(sizes, h).Message?
    ensures DecodeBody([size] + sizes, front + h)
         == Message([Words(front + h, size as int)] + DecodeBody(sizes, h).segments, DecodeBody(sizes, h).rest)
  {
    var n: nat := size as int;
    assert ([size] + sizes)[1..] == sizes && (front + h)[2 * n..] == h;
  }

  lemma {:induction false} BodyRoundTrip(segments: seq<Segment>, rest: seq<Half>)
    requires forall s :: s in segments ==> |s| < 0x1_0000_0000
    ensures DecodeBody(Sizes(segments), Body(segments) + rest) == Message(segments, rest)
  {
    if segments == [] {
      assert Body(segments) + rest == rest;
    } else {
      hide *;
      var first, others := segments[0], segments[1..];
      assert first in segments;
      BodyStep(segments, rest);
      WordsOfHalves(first, Body(others) + rest);
      BodyRoundTrip(others, rest);
      TruncateFits(|first|);
      DecodeBodyStep(Truncate(|first|), Sizes(others), Halves(first), Body(others) + rest);
      assert [first] + others == segments;
    }
  }

  lemma TruncateFits(n: nat)
    requires n < 0x1_0000_0000
    ensures Truncate(n) as int == n
  {
  }

  lemma TablePrefix(segments: seq<Segment>, rest: seq<Half>)
    requires Fits(segments)
    ensures var h := Table(segments) + rest;
            && |Table(segments)| == HeaderHalves(|segments|) && |Sizes(segments)| == |segments|
            && h[0] as int == |segments| - 1
            && h[1..|segments| + 1] == Sizes(segments) && h[HeaderHalves(|segments|)..] == rest
  {
    EncodedLength(segments);
    SizesAt(segments);
    TruncateFits(|segments| - 1);
    hide Sizes, Truncate;
    Pieces(Truncate(|segments| - 1), Sizes(segments), Padding(|segments|), rest);
  }

  lemma Pieces(a: Half, sizes: seq<Half>, padding: seq<Half>, rest: seq<Half>)
    ensures var h := ([a] + sizes + padding) + rest;
            h[0] == a && h[1..|sizes| + 1] == sizes && h[1 + |sizes| + |padding|..] == rest
  {
  }

  lemma DecodeStep(h: seq<Half>, n: nat)
    requires h != [] && h[0] as int + 1 == n && HeaderHalves(n) <= |h|
    ensures n + 1 <= |h| && Decode(h) == DecodeBody(h[1..n + 1], h[HeaderHalves(n)..])
  {
  }

  lemma FittingRoundTrip(segments: seq<Segment>, rest: seq<Half>)
    requires Fits(segments)
    ensures Decode(Encode(segments) + rest) == Message(segments, rest)
  {
    var h := Table(segments) + (Body(segments) + rest);
    assert Encode(segments) + rest == h;
    TablePrefix(segments, Body(segments) + rest);
    hide *;
    DecodeStep(h, |segments|);
    BodyRoundTrip(segments, rest);
  }

  // ---------------------------------------------------------------- reading is faithful

  lemma {:induction false} HalvesOfWords(h: seq<Half>, count: nat)
    requires 2 * count <= |h|
    ensures |Words(h, count)| == count && Halves(Words(h, count)) == h[..2 * count]
  {
    if count > 0 {
      HalvesOfWords(h[2..], count - 1);
      var w := Words(h, count);
      assert w[1..] == Words(h[2..], count - 1);
      assert h[..2 * count] == [h[0], h[1]] + h[2..][..2 * (count - 1)];
    }
  }

  lemma DecodedStep(sizes: seq<Half>, h: seq<Half>) returns (size: nat)
    requires sizes != [] && DecodeBody(sizes, h).Message?
    ensures size == sizes[0] as int && 2 * size <= |h| && DecodeBody(sizes[1..], h[2 * size..]).Message?
    ensures DecodeBody(sizes, h).segments == [Words(h, size)] + DecodeBody(sizes[1..], h[2 * size..]).segments
    ensures DecodeBody(sizes, h).rest == DecodeBody(sizes[1..], h[2 * size..]).rest
  {
    size := sizes[0] as int;
  }

  ghost predicate Small(segments: seq<Segment>)
  {
    forall s :: s in segments ==> |s| < 0x1_0000_0000
  }

  lemma BodyCons(first: Segment, others: seq<Segment>, size: Half, sizes: seq<Half>, h: seq<Half>, rest: seq<Half>)
    requires |first| == size as int && Small(others) && Sizes(others) == sizes
    requires 2 * |first| <= |h| && Halves(first) == h[..2 * |first|] && h[2 * |first|..] == Body(others) + rest
    ensures Small([first] + others) && Sizes([first] + others) == [size] + sizes && h == Body([first] + others) + rest
  {
    BodyStep([first] + others, rest);
    assert ([first] + others)[1..] == others;
    TruncateFits(|first|);
    assert h == h[..2 * |first|] + h[2 * |first|..];
  }

  lemma {:induction false} BodyIsFaithful(sizes: seq<Half>, h: seq<Half>)
    requires DecodeBody(sizes, h).Message?
    ensures var d := DecodeBody(sizes, h);
            Small(d.segments) && Sizes(d.segments) == sizes && h == Body(d.segments) + d.rest
  {
    if sizes == [] {
      assert h == [] + h;
    } else {
      hide *;
      var size := DecodedStep(sizes, h);
      BodyIsFaithful(sizes[1..], h[2 * size..]);
      HalvesOfWords(h, size);
      BodyCons(Words(h, size), DecodeBody(sizes[1..], h[2 * size..]).segments, sizes[0], sizes[1..], h,
               DecodeBody(sizes, h).rest);
      assert sizes == [sizes[0]] + sizes[1..];
    }
  }

  lemma HeaderSplits(h: seq<Half>, n: nat)
    requires h != [] && h[0] as int + 1 == n && HeaderHalves(n) <= |h| && (n % 2 == 0 ==> h[n + 1] == 0)
    ensures h == ([h[0]] + h[1..n + 1] + Padding(n)) + h[HeaderHalves(n)..]
  {
  }

  lemma HeaderIsThere(h: seq<Half>) returns (n: nat)
    requires Decode(h).Message?
    ensures h != [] && n == h[0] as int + 1 && n + 1 <= HeaderHalves(n) <= |h|
    ensures n % 2 == 0 ==> h[0] % 2 == 1
  {
    hide DecodeBody;
    n := h[0] as int + 1;
  }

  /** A stream that can be read and is padded with zero is the written form of what was read. */
  lemma DecodeIsFaithful(h: seq<Half>)
    requires Decode(h).Message? && (h[0] % 2 == 1 ==> h[h[0] as int + 2] == 0)
    ensures Fits(Decode(h).segments) && h == Encode(Decode(h).segments) + Decode(h).rest
  {
    hide *;
    var n := HeaderIsThere(h);
    var segments, rest := Decode(h).segments, Decode(h).rest;
    DecodeStep(h, n);
    BodyIsFaithful(h[1..n + 1], h[HeaderHalves(n)..]);
    SizesAt(segments);
    HeaderSplits(h, n);
    Reassemble(h[0], h[1..n + 1], segments, rest);
  }

  /** Whatever is read has no more segments and no longer ones than a table can express. */
  lemma DecodedFits(h: seq<Half>)
    requires Decode(h).Message?
    ensures Fits(Decode(h).segments)
  {
    hide *;
    var n := HeaderIsThere(h);
    DecodeStep(h, n);
    BodyIsFaithful(h[1..n + 1], h[HeaderHalves(n)..]);
    SizesAt(Decode(h).segments);
    SmallFits(h[0], Decode(h).segments);
  }

  /**
   Reading a stream that starts with a written message gives back the segments of the message and the rest
   of the stream, if and only if there are at most 2^32 segments of fewer than 2^32 words each.
   */
  lemma FramingRoundTrip(segments: seq<Segment>, rest: seq<Half>)
    requires segments != []
    ensures Decode(Encode(segments) + rest) == Message(segments, rest) <==> Fits(segments)
  {
    hide *;
    if Fits(segments) {
      FittingRoundTrip(segments, rest);
    } else if Decode(Encode(segments) + rest) == Message(segments, rest) {
      DecodedFits(Encode(segments) + rest);
    }
  }

  lemma TableOf(count: Half, segments: seq<Segment>)
    requires count as int + 1 == |segments|
    ensures Table(segments) == [count] + Sizes(segments) + Padding(|segments|)
  {
    TruncateFits(|segments| - 1);
  }

  lemma SmallFits(count: Half, segments: seq<Segment>)
    requires count as int + 1 == |segments| && Small(segments)
    ensures Fits(segments)
  {
  }

  lemma EncodeIs(segments: seq<Segment>)
    requires segments != []
    ensures Encode(segments) == Table(segments) + Body(segments)
  {
  }

  lemma Reassemble(count: Half, sizes: seq<Half>, segments: seq<Segment>, rest: seq<Half>)
    requires |sizes| == count as int + 1 == |segments| && Small(segments) && Sizes(segments) == sizes
    ensures Fits(segments) && ([count] + sizes + Padding(|sizes|)) + (Body(segments) + rest) == Encode(segments) + rest
  {
    hide *;
    SmallFits(count, segments);
    TableOf(count, segments);
    EncodeIs(segments);
    Assoc(Table(segments), Body(segments), rest);
  }

  // ---------------------------------------------------------------- writing a message

  lemma {:induction false} TotalAppend(segments: seq<Segment>, i: nat)
    requires i < |segments|
    ensures TotalWords(segments[..i + 1]) == TotalWords(segments[..i]) + |segments[i]|
    ensures Body(segments[..i + 1]) == Body(segments[..i]) + Halves(segments[i])
    decreases i
  {
    var longer, shorter := segments[..i + 1], segments[..i];
    if i == 0 {
      assert longer == [segments[0]] && longer[1..] == [];
    } else {
      TotalAppend(segments[1..], i - 1);
      assert longer[1..] == segments[1..][..i] && shorter[1..] == segments[1..][..i - 1];
      Assoc(Halves(segments[0]), Body(shorter[1..]), Halves(segments[i]));
    }
  }

  lemma {:induction false} TotalPrefix(segments: seq<Segment>, i: nat)
    requires i <= |segments|
    ensures TotalWords(segments[..i]) <= TotalWords(segments)
    decreases |segments|
  {
    if i > 0 {
      TotalPrefix(segments[1..], i - 1);
      assert segments[..i][1..] == segments[1..][..i - 1];
    }
  }

  method WriteTable(buf: array<Half>, segments: seq<Segment>)
    requires segments != [] && HeaderHalves(|segments|) <= buf.Length
    modifies buf
    ensures buf[..HeaderHalves(|segments|)] == Table(segments)
  {
    var n := |segments|;
    SizesAt(segments);
    buf[0] := Truncate(n - 1);
    for i := 0 to n
      invariant buf[0] == Truncate(n - 1)
      invariant forall k :: 0 <= k < i ==> buf[k + 1] == Sizes(segments)[k]
    {
      buf[i + 1] := Truncate(|segments[i]|);
    }
    if n % 2 == 0 {
      buf[n + 1] := 0;
    }
    TableIs(buf[..HeaderHalves(n)], segments);
  }

  lemma TableIs(t: seq<Half>, segments: seq<Segment>)
    requires segments != [] && |t| == HeaderHalves(|segments|) && |Sizes(segments)| == |segments|
    requires t[0] == Truncate(|segments| - 1) && forall k :: 0 <= k < |segments| ==> t[k + 1] == Sizes(segments)[k]
    requires |segments| % 2 == 0 ==> t[|segments| + 1] == 0
    ensures t == Table(segments)
  {
    hide Sizes, Truncate, Padding;
    var n := |segments|;
    PaddingIs(t, n);
    assert t[1..n + 1] == Sizes(segments);
    assert t == [t[0]] + t[1..n + 1] + t[n + 1..];
  }

  lemma PaddingIs(t: seq<Half>, n: nat)
    requires n > 0 && |t| == HeaderHalves(n) && (n % 2 == 0 ==> t[n + 1] == 0)
    ensures n + 1 <= |t| && t[n + 1..] == Padding(n)
  {
  }

  lemma {:induction false} HalvesAt(s: Segment, i: nat)
    requires i < |s|
    ensures |Halves(s)| == 2 * |s| && Halves(s)[2 * i] == s[i].lo && Halves(s)[2 * i + 1] == s[i].hi
    decreases i
  {
    HalvesLength(s);
    if i > 0 {
      HalvesAt(s[1..], i - 1);
    }
  }

  /** Copies the words of a segment to position `dst`. */
  method CopySegment(buf: array<Half>, dst: nat, s: Segment)
    requires dst + 2 * |s| <= buf.Length
    modifies buf
    ensures buf[..dst + 2 * |s|] == old(buf[..dst]) + Halves(s)
  {
    HalvesLength(s);
    for i := 0 to |s|
      invariant forall k :: 0 <= k < dst ==> buf[k] == old(buf[k])
      invariant forall k :: dst <= k < dst + 2 * i ==> buf[k] == Halves(s)[k - dst]
    {
      buf[dst + 2 * i] := s[i].lo;
      buf[dst + 2 * i + 1] := s[i].hi;
      HalvesAt(s, i);
    }
  }

  /** Writes the table and the segments; every half of the buffer is written. */
  method BuildSmartMessage(buf: array<Half>, segments: seq<Segment>)
    requires segments != [] && buf.Length == 2 * (|segments| / 2 + 1 + TotalWords(segments))
    modifies buf
    ensures buf[..] == Encode(segments)
  {
    WriteTable(buf, segments);
    var dst: nat := HeaderHalves(|segments|);
    assert Table(segments) + [] == Table(segments) && segments[..0] == [];
    for i := 0 to |segments|
      invariant dst == HeaderHalves(|segments|) + 2 * TotalWords(segments[..i]) <= buf.Length
      invariant buf[..dst] == Table(segments) + Body(segments[..i])
    {
      TotalAppend(segments, i);
      TotalPrefix(segments, i + 1);
      Assoc(Table(segments), Body(segments[..i]), Halves(segments[i]));
      CopySegment(buf, dst, segments[i]);
      dst := dst + 2 * |segments[i]|;
    }
    assert segments[..|segments|] == segments;
    assert buf[..dst] == buf[..];
  }

  /** Sizes a buffer for the message and fills it: reading it by the specification gives the segments back. */
  method Build(segments: seq<Segment>) returns (message: seq<Half>)
    requires segments != []
    ensures message == Encode(segments) && |message| == 2 * (|segments| / 2 + 1 + TotalWords(segments))
    ensures Decode(message) == Message(segments, []) <==> Fits(segments)
  {
    var words := |segments| / 2 + 1 + TotalWords(segments);
    var buf := new Half[2 * words];
    BuildSmartMessage(buf, segments);
    message := buf[..];
    FramingRoundTrip(segments, []);
    assert message + [] == message;
  }
}
