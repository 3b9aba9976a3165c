/** gateway/docker.go: taking Docker's 8-byte stream headers out of a log. */
module LogFrames {
  type Byte = b: int | 0 <= b < 256

  function SizeField(b: seq<Byte>): nat
    requires |b| >= 8
  {
    // The shifted bytes do not overlap, so or-ing them together is adding them.
    b[4] as int * 0x100_0000 + b[5] as int * 0x1_0000 + b[6] as int * 0x100 + b[7] as int
  }

  function Min(a: nat, b: nat): nat { if a < b then a else b }

  /** The payloads of all frames, the last one cut to what is there; fewer than 8 bytes are ignored. */
  function Stripped(b: seq<Byte>): seq<Byte> {
    if |b| < 8 then []
    else
      var size := Min(SizeField(b), |b| - 8);
      b[8..8 + size] + Stripped(b[8 + size..])
  }

  lemma StripStep(b: seq<Byte>, size: nat)
    requires |b| >= 8 && size == Min(SizeField(b), |b| - 8)
    ensures Stripped(b) == b[8..][..size] + Stripped(b[8..][size..])
  {
    assert b[8..][..size] == b[8..8 + size] && b[8..][size..] == b[8 + size..];
  }

  method StripDockerLogHeaders(input: seq<Byte>) returns (buf: seq<Byte>)
    ensures buf == Stripped(input)
  {
    buf := [];
    var b := input;
    while |b| >= 8
      invariant buf + Stripped(b) == Stripped(input)
      decreases |b|
    {
      ghost var frame, before := b, buf;
      var size := SizeField(b);
      b := b[8..];
      if size > |b| {
        size := |b|;
      }
      buf := buf + b[..size];
      b := b[size..];
      StripStep(frame, size);
      assert buf + Stripped(b) == before + (frame[8..][..size] + Stripped(b));
    }
  }

  // ---------------------------------------------------------------- the inverse

  /** Docker's framing: stream type, three zero bytes, the size in four big-endian bytes, the payload. */
  function Frame(stream: Byte, payload: seq<Byte>): seq<Byte> {
    var n := |payload|;
    [stream, 0, 0, 0, (n / 0x100_0000) % 256, (n / 0x1_0000) % 256, (n / 0x100) % 256, n % 256] + payload
  }

  datatype Chunk = Chunk(stream: Byte, payload: seq<Byte>)

  function Framed(chunks: seq<Chunk>): seq<Byte> {
    if chunks == [] then [] else Frame(chunks[0].stream, chunks[0].payload) + Framed(chunks[1..])
  }

  function Payloads(chunks: seq<Chunk>): seq<Byte> {
    if chunks == [] then [] else chunks[0].payload + Payloads(chunks[1..])
  }

  lemma SizeRoundTrip(n: nat)
    requires n < 0x1_0000_0000
    ensures n == (n / 0x100_0000) % 256 * 0x100_0000 + (n / 0x1_0000) % 256 * 0x1_0000 + (n / 0x100) % 256 * 0x100
                 + n % 256
  {}

  lemma StripOneFrame(stream: Byte, payload: seq<Byte>, rest: seq<Byte>)
    requires |payload| < 0x1_0000_0000
    ensures Stripped(Frame(stream, payload) + rest) == payload + Stripped(rest)
  {
    var b := Frame(stream, payload) + rest;
    SizeRoundTrip(|payload|);
    assert SizeField(b) == |payload|;
    assert b[8..8 + |payload|] == payload;
    assert b[8 + |payload|..] == rest;
  }

  /** In terms of the bytes: the first four are dropped, the next four count the payload, most
      significant first. */
  lemma HeaderInTermsOfBytes(b: seq<Byte>, payload: seq<Byte>, rest: seq<Byte>)
    requires |b| == 8 && |payload| == ((b[4] as int * 256 + b[5] as int) * 256 + b[6] as int) * 256 + b[7] as int
    ensures Stripped(b + payload + rest) == payload + Stripped(rest)
  {
    var all := b + payload + rest;
    assert all[..8] == b && all[8..8 + |payload|] == payload && all[8 + |payload|..] == rest;
    assert all[4] == b[4] && all[5] == b[5] && all[6] == b[6] && all[7] == b[7];
    assert SizeField(all) == |payload|;
  }

  /** A frame cut off within its payload yields what is there of it. */
  lemma CutFrameYieldsRest(b: seq<Byte>, part: seq<Byte>)
    requires |b| == 8 && |part| <= ((b[4] as int * 256 + b[5] as int) * 256 + b[6] as int) * 256 + b[7] as int
    ensures Stripped(b + part) == part
  {
    var all := b + part;
    assert all[8..] == part && all[8..8 + |part|] == part && all[8 + |part|..] == [];
    assert all[4] == b[4] && all[5] == b[5] && all[6] == b[6] && all[7] == b[7];
    assert SizeField(all) >= |part|;
  }

  /** Stripping inverts framing, and fewer than 8 trailing bytes are ignored. */
  lemma {:induction false} StripInvertsFraming(chunks: seq<Chunk>, trailing: seq<Byte>)
    requires forall c :: c in chunks ==> |c.payload| < 0x1_0000_0000
    requires |trailing| < 8
    ensures Stripped(Framed(chunks) + trailing) == Payloads(chunks)
  {
    if chunks == [] {
      assert Framed(chunks) + trailing == trailing;
    } else {
      StripInvertsFraming(chunks[1..], trailing);
      StripOneFrame(chunks[0].stream, chunks[0].payload, Framed(chunks[1..]) + trailing);
      assert Framed(chunks) + trailing == Frame(chunks[0].stream, chunks[0].payload) + (Framed(chunks[1..]) + trailing);
    }
  }

  lemma PrefixSlices(a: seq<Byte>, b: seq<Byte>, i: nat, j: nat)
    requires a <= b && i <= j <= |a|
    ensures a[i..j] == b[i..j] && a[j..] <= b[j..]
  {}

  lemma SizeOfPrefix(a: seq<Byte>, b: seq<Byte>)
    requires a <= b && |a| >= 8
    ensures SizeField(a) == SizeField(b)
  {}

  lemma ConcatPrefix(x: seq<Byte>, y: seq<Byte>, z: seq<Byte>)
    requires y <= z
    ensures x + y <= x + z
  {}

  lemma CutPrefix(b: seq<Byte>, i: nat, j: nat, k: nat, rest: seq<Byte>)
    requires i <= j <= k <= |b|
    ensures b[i..j] + [] <= b[i..k] + rest
  {}

  lemma StrippedParts(b: seq<Byte>, size: nat)
    requires |b| >= 8 && size == Min(SizeField(b), |b| - 8)
    ensures Stripped(b) == b[8..8 + size] + Stripped(b[8 + size..])
  {}

  /** Reading less of a log never shows anything that reading more would not: stripping a prefix gives
      a prefix. */
  lemma {:induction false} PrefixMonotone(a: seq<Byte>, b: seq<Byte>)
    requires a <= b
    ensures Stripped(a) <= Stripped(b)
    decreases |a|
  {
    if |a| < 8 {
      assert Stripped(a) == [];
    } else {
      SizeOfPrefix(a, b);
      hide SizeField, Stripped;
      var s, t := Min(SizeField(a), |a| - 8), Min(SizeField(b), |b| - 8);
      StrippedParts(a, s);
      StrippedParts(b, t);
      PrefixSlices(a, b, 8, 8 + s);
      if s == t {
        PrefixMonotone(a[8 + s..], b[8 + s..]);
        ConcatPrefix(a[8..8 + s], Stripped(a[8 + s..]), Stripped(b[8 + s..]));
      } else {
        NothingLeft(a, 8 + s);
        CutPrefix(b, 8, 8 + s, 8 + t, Stripped(b[8 + t..]));
      }
    }
  }

  lemma NothingLeft(a: seq<Byte>, i: nat)
    requires i == |a|
    ensures Stripped(a[i..]) == []
  {}

  /** Nothing is invented: at least eight bytes go for every frame. */
  lemma {:induction false} StrippedIsShorter(b: seq<Byte>)
    ensures |Stripped(b)| <= |b| && (|b| >= 8 ==> |Stripped(b)| + 8 <= |b|)
  {
    if |b| >= 8 {
      var size := Min(SizeField(b), |b| - 8);
      StrippedIsShorter(b[8 + size..]);
    }
  }
}
