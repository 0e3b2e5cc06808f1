/**
  IPv4 addresses as 32-bit unsigned integers, and the `socket`/`struct` calls the
  agent chains to move between an address, its four bytes and its dotted-quad text:
  `inet_aton`, `inet_ntoa`, `struct.pack('I')`/`struct.unpack('I')` and
  `ntohl`/`htonl`. The host is little-endian, so `I` packs the least significant
  byte first and `ntohl`/`htonl` reverse the byte order.
 */
module Inet {
  import opened Wrappers
  import opened Text

  const AddrCount: int := 0x1_0000_0000

  /** An IPv4 address, as the unsigned integer IPy and `ntohl` produce. */
  type Addr = n: int | 0 <= n < 0x1_0000_0000

  type Byte = n: int | 0 <= n < 256

  /** A four-byte buffer, as `inet_aton` and `struct.pack('I')` return it, first byte first. */
  datatype Quad = Quad(b0: Byte, b1: Byte, b2: Byte, b3: Byte)

  /** `socket.inet_aton` of an address: its bytes in network order, most significant first. */
  function NetworkBytes(a: Addr): Quad {
    var q1 := a / 256;
    var q2 := q1 / 256;
    Quad(q2 / 256, q2 % 256, q1 % 256, a % 256)
  }

  /** The address four bytes in network order stand for. */
  function NetworkValue(q: Quad): Addr {
    ((q.b0 as int * 256 + q.b1) * 256 + q.b2) * 256 + q.b3
  }

  /** The same four bytes in the opposite order. */
  function Swapped(q: Quad): Quad {
    Quad(q.b3, q.b2, q.b1, q.b0)
  }

  /** `struct.unpack("I", q)[0]` on a little-endian host. */
  function UnpackNative(q: Quad): Addr {
    NetworkValue(Swapped(q))
  }

  /** `struct.pack('I', v)` on a little-endian host. */
  function PackNative(v: Addr): Quad {
    Swapped(NetworkBytes(v))
  }

  /** `socket.ntohl(v)`, equally `socket.htonl(v)`, for a value that fits 32 bits. */
  function ByteSwap(v: Addr): Addr {
    UnpackNative(NetworkBytes(v))
  }

  /** `socket.htonl(v)` for any Python integer: `OverflowError` (None) outside 32 bits. */
  function Htonl(v: int): (r: Option<Addr>)
    ensures r.Some? <==> 0 <= v < AddrCount
  {
    if 0 <= v < AddrCount then Some(ByteSwap(v)) else None
  }

  /** `socket.inet_ntoa(q)`: the bytes in decimal, joined by dots. */
  function InetNtoa(q: Quad): string {
    NatToString(q.b0) + "." + NatToString(q.b1) + "." + NatToString(q.b2) + "." + NatToString(q.b3)
  }

  /** One dotted-quad field: a decimal number below 256. */
  predicate IsByteText(t: string) {
    t != "" && AllDigits(t) && DigitsValue(t) < 256
  }

  /** `socket.inet_aton(s)` for the four-field decimal form, the only form its caller
      passes (IPy's printed network); every other text is None here. */
  function InetAton(s: string): Option<Quad> {
    var parts := Split(s, ".");
    if |parts| == 4 && IsByteText(parts[0]) && IsByteText(parts[1])
       && IsByteText(parts[2]) && IsByteText(parts[3])
    then Some(Quad(DigitsValue(parts[0]), DigitsValue(parts[1]), DigitsValue(parts[2]), DigitsValue(parts[3])))
    else None
  }

  /** The address a dotted quad names (`IP(s)` for such text), or None. */
  function ParseAddr(s: string): Option<Addr> {
    var q := InetAton(s);
    if q.None? then None else Some(NetworkValue(q.value))
  }

  /** Field `i` of IPy's dotted form, zero when the text has fewer fields. */
  function FieldValue(parts: seq<string>, i: nat): Byte
    requires forall k :: 0 <= k < |parts| ==> IsByteText(parts[k])
  {
    if i < |parts| then assert IsByteText(parts[i]); DigitsValue(parts[i]) else 0
  }

  /** Decimal text of 32 characters, which IPy reads as hexadecimal IPv6 before anything else. */
  predicate LongDecimal(s: string) {
    |s| == 32 && AllDigits(s)
  }

  /**
    `IP(s)` of IPy, for text naming an IPv4 address. Text with a dot, or a decimal
    below 256, is up to four decimal bytes with the missing ones zero (`127` is
    127.0.0.0, `10.1` is 10.1.0.0). Other decimal text is the address itself when it
    fits 32 bits. Anything else — too many fields, a field above 255, a decimal that
    IPy takes for IPv6 — names no IPv4 address (None).
   */
  function IpyAddr(s: string): (r: Option<Addr>)
    ensures InetAton(s).Some? ==> r == ParseAddr(s)
  {
    var parts := Split(s, ".");
    if LongDecimal(s) then DigitsOneField(s); None
    else if |parts| <= 4 && forall k :: 0 <= k < |parts| ==> IsByteText(parts[k]) then
      IpyQuad(s, parts)
    else if |parts| == 1 && s != "" && AllDigits(s) && DigitsValue(s) < AddrCount then Some(DigitsValue(s))
    else None
  }

  /** Decimal text holds no dot, so it is a single field. */
  lemma DigitsOneField(s: string)
    requires AllDigits(s)
    ensures Split(s, ".") == [s]
  {
    assert '.' !in s by {
      forall k | 0 <= k < |s| ensures s[k] != '.' { assert IsDigit(s[k]); }
    }
    SplitNone(s, ".");
  }

  /** The bytes branch of `IpyAddr`: the fields padded with zeros. */
  function IpyQuad(s: string, parts: seq<string>): (r: Option<Addr>)
    requires parts == Split(s, ".") && |parts| <= 4
    requires forall k :: 0 <= k < |parts| ==> IsByteText(parts[k])
    ensures InetAton(s).Some? ==> r == ParseAddr(s)
  {
    Some(NetworkValue(Quad(FieldValue(parts, 0), FieldValue(parts, 1), FieldValue(parts, 2), FieldValue(parts, 3))))
  }

  /** IPy reads one decimal byte as the first byte of the address. */
  lemma IpyOneField(a: Byte)
    ensures IpyAddr(NatToString(a)) == Some(NetworkValue(Quad(a, 0, 0, 0)))
  {
    var t := NatToString(a);
    ByteTextOf(a);
    SplitNone(t, ".");
    assert |t| != 32 by { DigitsWithin(a, 3); }
  }

  /** IPy reads two dotted bytes as the first two bytes of the address. */
  lemma IpyTwoFields(a: Byte, b: Byte)
    ensures IpyAddr(NatToString(a) + "." + NatToString(b)) == Some(NetworkValue(Quad(a, b, 0, 0)))
  {
    var t0, t1 := NatToString(a), NatToString(b);
    ByteTextOf(a);
    ByteTextOf(b);
    SplitNone(t1, ".");
    SplitDot(t0, t1, [t1]);
    var s := t0 + "." + t1;
    assert !AllDigits(s) by { assert s[|t0|] == '.'; }
  }

  /** IPy reads other decimal text within 32 bits as the address itself. */
  lemma IpyDecimal(v: Addr)
    requires v >= 256
    ensures IpyAddr(NatToString(v)) == Some(v)
  {
    var t := NatToString(v);
    NatToStringValue(v);
    NatToStringShort(v);
    DigitsOneField(t);
    assert !IsByteText(t);
  }

  /** The decimal text of an address is at most ten characters. */
  lemma NatToStringShort(v: Addr)
    ensures |NatToString(v)| <= 10
  {
    assert TenTo(10) == 10000000000;
    DigitsWithin(v, 10);
  }

  /** `10 ** len` */
  function TenTo(len: nat): nat {
    if len == 0 then 1 else 10 * TenTo(len - 1)
  }

  /** A number below `10 ** len` prints in at most `len` digits. */
  lemma {:induction false} DigitsWithin(n: nat, len: nat)
    requires len >= 1 && n < TenTo(len)
    ensures |NatToString(n)| <= len
  {
    if n >= 10 {
      DigitsWithin(n / 10, len - 1);
    }
  }

  /** IPy reads a dotted quad as `inet_aton` does. */
  lemma IpyDotted(a: Addr)
    ensures IpyAddr(Dotted(a)) == Some(a)
  {
    DottedParses(a);
  }

  /** The dotted-quad text of an address. */
  function Dotted(a: Addr): string {
    InetNtoa(NetworkBytes(a))
  }

  /** Division by 256 undoes `q * 256 + r` for a byte `r`. */
  lemma Split256(x: int, q: int, r: int)
    requires x == q * 256 + r && 0 <= r < 256
    ensures x / 256 == q && x % 256 == r
  {
  }

  /** An address and its network-order bytes determine each other. */
  lemma NetworkBytesRoundTrip(a: Addr, q: Quad)
    ensures NetworkValue(NetworkBytes(a)) == a
    ensures NetworkBytes(NetworkValue(q)) == q
  {
    var v1 := (q.b0 as int * 256 + q.b1) * 256 + q.b2;
    var v2 := q.b0 as int * 256 + q.b1;
    Split256(NetworkValue(q), v1, q.b3);
    Split256(v1, v2, q.b2);
    Split256(v2, q.b0, q.b1);
  }

  /** Packing and unpacking with `I` are inverse. */
  lemma PackRoundTrip(v: Addr, q: Quad)
    ensures UnpackNative(PackNative(v)) == v
    ensures PackNative(UnpackNative(q)) == q
  {
    NetworkBytesRoundTrip(v, Swapped(q));
  }

  /** Swapping the byte order twice gives the value back. */
  lemma ByteSwapInvolution(v: Addr)
    ensures ByteSwap(ByteSwap(v)) == v
  {
    NetworkBytesRoundTrip(v, Swapped(NetworkBytes(v)));
  }

  /** `ntohl(struct.unpack("I", inet_aton(a))[0])` is the address itself. */
  lemma HostOrderValue(a: Addr)
    ensures ByteSwap(UnpackNative(NetworkBytes(a))) == a
  {
    ByteSwapInvolution(a);
  }

  /** `inet_ntoa(struct.pack('I', htonl(v)))` is the dotted quad of `v` whenever `v` fits. */
  lemma FormatHostValue(v: int)
    requires 0 <= v < AddrCount
    ensures Htonl(v).Some? && InetNtoa(PackNative(Htonl(v).value)) == Dotted(v)
  {
    NetworkBytesRoundTrip(v, Swapped(NetworkBytes(v)));
  }

  /** A field of a dotted quad is its byte's decimal text. */
  lemma ByteTextOf(b: Byte)
    ensures IsByteText(NatToString(b)) && DigitsValue(NatToString(b)) == b
    ensures '.' !in NatToString(b)
  {
    NatToStringValue(b);
  }

  /** Four dot-free fields joined by dots split back into those fields. */
  lemma SplitQuad(t0: string, t1: string, t2: string, t3: string)
    requires '.' !in t0 && '.' !in t1 && '.' !in t2 && '.' !in t3
    ensures Split(t0 + "." + t1 + "." + t2 + "." + t3, ".") == [t0, t1, t2, t3]
  {
    DotAssoc(t0, t1, t2, t3);
    SplitNone(t3, ".");
    SplitDot(t2, t3, [t3]);
    SplitDot(t1, t2 + "." + t3, [t2, t3]);
    SplitDot(t0, t1 + "." + (t2 + "." + t3), [t1, t2, t3]);
  }

  lemma DotAssoc(t0: string, t1: string, t2: string, t3: string)
    ensures t0 + "." + t1 + "." + t2 + "." + t3 == t0 + "." + (t1 + "." + (t2 + "." + t3))
  {
  }

  /** A dot-free field followed by a dot is split off ahead of the rest's fields. */
  lemma SplitDot(a: string, rest: string, parts: seq<string>)
    requires '.' !in a && Split(rest, ".") == parts
    ensures Split(a + "." + rest, ".") == [a] + parts
  {
    SplitHead(a, ".", rest);
  }

  /** `inet_aton` reads back the bytes `inet_ntoa` wrote. */
  lemma InetAtonNtoa(q: Quad)
    ensures InetAton(InetNtoa(q)) == Some(q)
  {
    var t0, t1, t2, t3 := NatToString(q.b0), NatToString(q.b1), NatToString(q.b2), NatToString(q.b3);
    ByteTextOf(q.b0);
    ByteTextOf(q.b1);
    ByteTextOf(q.b2);
    ByteTextOf(q.b3);
    SplitQuad(t0, t1, t2, t3);
    assert Split(InetNtoa(q), ".") == [t0, t1, t2, t3];
  }

  /** The dotted quad of an address parses back to the address. */
  lemma DottedParses(a: Addr)
    ensures ParseAddr(Dotted(a)) == Some(a)
  {
    InetAtonNtoa(NetworkBytes(a));
    NetworkBytesRoundTrip(a, NetworkBytes(a));
  }
}
