/** Little-endian integers and UTF-16 text as they appear on the wire, and the
    fixed-width C types the program computes with. */
module Wire {
  type byte = x: int | 0 <= x < 0x100
  type wchar = x: int | 0 <= x < 0x1_0000
  type u16 = x: int | 0 <= x < 0x1_0000
  type u32 = x: int | 0 <= x < 0x1_0000_0000

  const U32_MAX: u32 := 0xFFFF_FFFF

  datatype Option<+T> = None | Some(value: T)

  /** The outcome of an operation: the C code returns an error code, zero for
      Ok. Abort stands for an assertion of the C library that stops the process
      and for a read outside the buffer, which C leaves undefined. */
  datatype Status =
    | Ok
    | NoMemory
    | InvalidData
    | InvalidParameter
    | InternalError
    | ConnectionRefused
    | ChannelFailure(code: u32)
    | Abort

  /** Conversion to an unsigned 32-bit value. */
  function Wrap32(x: int): (r: u32)
    ensures 0 <= x <= U32_MAX ==> r == x
  {
    x % 0x1_0000_0000
  }

  function LE32(n: u32): (b: seq<byte>)
    ensures |b| == 4
  {
    [n % 256, n / 256 % 256, n / 256 / 256 % 256, n / 256 / 256 / 256]
  }

  /** The value of the first four bytes. */
  function ReadLE32(b: seq<byte>): u32
    requires |b| >= 4
  {
    b[0] as int + 256 * b[1] as int + 65536 * b[2] as int + 16777216 * b[3] as int
  }

  lemma LE32RoundTrip(n: u32, rest: seq<byte>)
    ensures ReadLE32(LE32(n) + rest) == n
  {
    var b := LE32(n) + rest;
    assert b[..4] == LE32(n);
    var n1: int := n / 256;
    var n2: int := n1 / 256;
    assert n == 256 * n1 + n % 256 && n1 == 256 * n2 + n1 % 256 && n2 == 256 * (n2 / 256) + n2 % 256;
  }

  /** The other way round: four bytes are the encoding of their value only. */
  lemma LE32Exact(b: seq<byte>, n: u32)
    requires |b| >= 4
    ensures ReadLE32(b) == n <==> b[..4] == LE32(n)
  {
    if b[..4] == LE32(n) {
      assert b == LE32(n) + b[4..];
      LE32RoundTrip(n, b[4..]);
    }
    if ReadLE32(b) == n {
      assert n == b[0] as int + 256 * (b[1] as int + 256 * (b[2] as int + 256 * b[3] as int));
      var n1: int := n / 256;
      assert n1 == b[1] as int + 256 * (b[2] as int + 256 * b[3] as int) && n % 256 == b[0] as int;
      var n2: int := n1 / 256;
      assert n2 == b[2] as int + 256 * b[3] as int && n1 % 256 == b[1] as int;
    }
  }

  function WideBytes(w: seq<wchar>): (b: seq<byte>)
    ensures |b| == 2 * |w|
  {
    seq(2 * |w|, i requires 0 <= i < 2 * |w| => if i % 2 == 0 then w[i / 2] % 256 else w[i / 2] / 256)
  }

  /** The 16-bit characters of a byte buffer; an odd last byte is no character. */
  function WideChars(b: seq<byte>): (w: seq<wchar>)
    ensures |w| == |b| / 2
  {
    seq(|b| / 2, i requires 0 <= i < |b| / 2 => b[2 * i] as int + 256 * b[2 * i + 1] as int)
  }

  lemma WideRoundTrip(w: seq<wchar>, rest: seq<byte>)
    ensures WideChars(WideBytes(w) + rest) == w + WideChars(rest)
  {
    var b := WideBytes(w) + rest;
    var all := WideChars(b);
    assert |all| == |w| + |rest| / 2;
    forall i | 0 <= i < |all| ensures all[i] == (w + WideChars(rest))[i] {
      if i < |w| {
        assert (2 * i) % 2 == 0 && (2 * i + 1) % 2 == 1 && (2 * i + 1) / 2 == i;
        assert b[2 * i] == w[i] % 256 && b[2 * i + 1] == w[i] / 256;
      } else {
        assert b[2 * i] == rest[2 * (i - |w|)] && b[2 * i + 1] == rest[2 * (i - |w|) + 1];
      }
    }
  }

  lemma WideBytesConcat(v: seq<wchar>, w: seq<wchar>)
    ensures WideBytes(v + w) == WideBytes(v) + WideBytes(w)
  {
    var a, b := WideBytes(v + w), WideBytes(v) + WideBytes(w);
    forall i | 0 <= i < |a| ensures a[i] == b[i] {
      if i >= 2 * |v| {
        assert (i - 2 * |v|) % 2 == i % 2 && (i - 2 * |v|) / 2 == i / 2 - |v|;
      }
    }
  }
}
