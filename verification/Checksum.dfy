/**
 * The Internet checksum (section 2 of RFC 1071) and its use for outgoing UDP datagrams.
 * Source: unpv13e/libfree/in_cksum.c, unpv13e/udpcksum/udpwrite.c.
 */
module Checksum {
  import opened Counting

  const MAX16 := 0xffff
  const TWO32 := 0x1_0000_0000

  /** The byte order of the host. */
  datatype Endian = Big | Little

  /** The 16-bit value of two adjacent bytes in memory, and back. */
  function Load(e: Endian, b0: byte, b1: byte): word
  {
    if e.Big? then b0 * 256 + b1 else b0 + b1 * 256
  }

  function Stored(e: Endian, w: word): (b: seq<byte>)
    ensures |b| == 2 && Load(e, b[0], b[1]) == w
  {
    if e.Big? then [w / 256, w % 256] else [w % 256, w / 256]
  }

  // ----- the one's complement sum -----

  /** One's complement addition: the carry out of the top bit is added back. */
  function OnesAdd(a: word, b: word): word
  {
    if a + b > MAX16 then a + b - MAX16 else a + b
  }

  /** The one's complement sum of the words of a message; an odd byte counts as if followed by a zero byte. */
  function OnesSum(e: Endian, m: seq<byte>): word
  {
    if m == [] then 0
    else if |m| == 1 then Load(e, m[0], 0)
    else OnesAdd(Load(e, m[0], m[1]), OnesSum(e, m[2..]))
  }

  /** The ordinary sum of the words. */
  function WordSum(e: Endian, m: seq<byte>): nat
  {
    if m == [] then 0
    else if |m| == 1 then Load(e, m[0], 0)
    else Load(e, m[0], m[1]) + WordSum(e, m[2..])
  }

  /** The place value of byte i, high or low by position and host. */
  function Place(e: Endian, i: nat): nat
  {
    if (i % 2 == 0) == e.Big? then 256 else 1
  }

  /** Each byte counts with its place value; that determines the sum. */
  lemma {:induction false} ByteWeight(e: Endian, m: seq<byte>, i: nat, b: byte)
    requires i < |m|
    ensures WordSum(e, m[i := b]) == WordSum(e, m) + (b - m[i]) * Place(e, i)
  {
    if i >= 2 {
      hide Load;
      ByteWeight(e, m[2..], i - 2, b);
      assert m[i := b][2..] == m[2..][i - 2 := b];
      assert Place(e, i) == Place(e, i - 2);
    } else if |m| >= 2 {
      assert m[i := b][2..] == m[2..];
      FirstWord(e, m, i, b);
    }
  }

  lemma {:induction false} FirstWord(e: Endian, m: seq<byte>, i: nat, b: byte)
    requires i < 2 <= |m|
    ensures Load(e, m[i := b][0], m[i := b][1]) == Load(e, m[0], m[1]) + (b - m[i]) * Place(e, i)
  {
  }

  lemma {:induction false} ZeroBytesSum(e: Endian, m: seq<byte>)
    requires forall i :: 0 <= i < |m| ==> m[i] == 0
    ensures WordSum(e, m) == 0
  {
    if |m| > 1 {
      ZeroBytesSum(e, m[2..]);
    }
  }

  /** A sum with all its carries added back: 0 stays 0, any other sum becomes its residue in 1..65535. */
  function Carried(x: nat): word
  {
    if x == 0 then 0 else (x - 1) % MAX16 + 1
  }

  lemma {:induction false} CarriedIs(x: nat, y: word, k: int)
    requires y > 0 && x > 0 && x == y + MAX16 * k
    ensures Carried(x) == y
  {
    assert (x - 1) == (y - 1) + MAX16 * k;
  }

  lemma {:induction false} CarriedResidue(x: nat) returns (k: nat)
    ensures x == Carried(x) + MAX16 * k
    ensures x > 0 <==> Carried(x) > 0
  {
    k := if x == 0 then 0 else (x - 1) / MAX16;
  }

  lemma {:induction false} CarriedSmall(w: word)
    ensures Carried(w) == w
  {
  }

  lemma {:induction false} CarriedSum(x: nat, y: nat)
    ensures Carried(x + y) == OnesAdd(Carried(x), Carried(y))
  {
    var j := CarriedResidue(x);
    var k := CarriedResidue(y);
    var s := OnesAdd(Carried(x), Carried(y));
    if x + y > 0 {
      CarriedIs(x + y, s, if Carried(x) + Carried(y) > MAX16 then j + k + 1 else j + k);
    }
  }

  lemma {:induction false} OnesSumIsCarried(e: Endian, m: seq<byte>)
    ensures OnesSum(e, m) == Carried(WordSum(e, m))
  {
    hide Carried, OnesAdd, Load;
    if |m| <= 1 {
      CarriedSmall(if |m| == 1 then Load(e, m[0], 0) else 0);
    } else {
      CarriedSmall(Load(e, m[0], m[1]));
      OnesSumIsCarried(e, m[2..]);
      CarriedSum(Load(e, m[0], m[1]), WordSum(e, m[2..]));
    }
  }

  // ----- in_cksum -----

  /** The two folds, the complement and the truncation to 16 bits. */
  function Folded(sum: nat): word
  {
    var once := sum / 0x10000 + sum % 0x10000;
    var twice := once + once / 0x10000;
    MAX16 - twice % 0x10000
  }

  lemma {:induction false} FoldedIsCarried(sum: nat)
    requires sum < TWO32
    ensures Folded(sum) == MAX16 - Carried(sum)
  {
    var h, l := sum / 0x10000, sum % 0x10000;
    if sum > 0 {
      CarriedIs(sum, if h + l > MAX16 then h + l - MAX16 else h + l, if h + l > MAX16 then h + 1 else h);
    }
  }

  /** The value of a 32-bit unsigned variable. */
  function U32(x: nat): (u: nat)
    ensures u < TWO32
  {
    x % TWO32
  }

  lemma {:induction false} Accumulate(x: nat, rest: nat)
    ensures U32(U32(x) + rest) == U32(x + rest)
  {
  }

  lemma {:induction false} U32Small(x: nat)
    requires x < TWO32
    ensures U32(x) == x
  {
  }

  /** in_cksum, with its 32-bit accumulator. */
  method InCksum(e: Endian, m: seq<byte>) returns (answer: word)
    ensures answer == Folded(U32(WordSum(e, m)))
    ensures |m| <= 131074 ==> answer == MAX16 - OnesSum(e, m)
  {
    var sum := Accumulated(e, m);
    sum := sum / 0x10000 + sum % 0x10000;
    sum := sum + sum / 0x10000;
    answer := MAX16 - sum % 0x10000;
    if |m| <= 131074 {
      ExactUpTo(e, m);
    }
  }

  /** The loop over the words and the odd byte. */
  method Accumulated(e: Endian, m: seq<byte>) returns (sum: nat)
    ensures sum == U32(WordSum(e, m))
  {
    hide U32, Load;
    var nleft, w := |m|, 0;
    sum := 0;
    assert m[0..] == m;
    while nleft > 1
      invariant 0 <= nleft && w == |m| - nleft
      invariant U32(sum + WordSum(e, m[w..])) == U32(WordSum(e, m))
      invariant sum < TWO32
    {
      assert m[w..][2..] == m[w + 2..];
      Accumulate(sum + Load(e, m[w], m[w + 1]), WordSum(e, m[w + 2..]));
      sum := U32(sum + Load(e, m[w], m[w + 1]));
      w := w + 2;
      nleft := nleft - 2;
    }
    if nleft == 1 {
      assert m[w..] == [m[w]];
      sum := U32(sum + Load(e, m[w], 0));
    } else {
      assert m[w..] == [];
      U32Small(sum);
    }
  }

  lemma {:induction false} SumBound(e: Endian, m: seq<byte>)
    ensures WordSum(e, m) <= (|m| + 1) / 2 * MAX16
  {
    hide Load;
    if |m| > 1 {
      SumBound(e, m[2..]);
      var k := (|m[2..]| + 1) / 2;
      assert (|m| + 1) / 2 == k + 1;
      assert (k + 1) * MAX16 == k * MAX16 + MAX16;
    }
  }

  /**
   * The exact limit of the 32-bit accumulator: for a length that fits an int, the result is the
   * complement of the one's complement sum if and only if the accumulator did not wrap.
   */
  lemma {:induction false} ExactUnlessWrapped(e: Endian, m: seq<byte>)
    requires |m| < 0x8000_0000
    ensures Folded(U32(WordSum(e, m))) == MAX16 - OnesSum(e, m) <==> WordSum(e, m) < TWO32
  {
    hide Folded, Carried;
    var s := WordSum(e, m);
    SumBound(e, m);
    OnesSumIsCarried(e, m);
    FoldedIsCarried(U32(s));
    if s >= TWO32 {
      WrappingLoses(s);
    }
  }

  lemma {:induction false} WrappingLoses(s: nat)
    requires TWO32 <= s < TWO32 * MAX16
    ensures Carried(s) != Carried(U32(s))
  {
    var j := CarriedResidue(s);
    var k := CarriedResidue(U32(s));
    hide Carried;
    var q := s / TWO32;
    var t := j - k - 65537 * q;
    assert Carried(s) == Carried(U32(s)) ==> q == MAX16 * t;
    assert q != MAX16 * t;
  }

  /** The bound of 131074 bytes is sharp: two more bytes, all ones, and the result is wrong. */
  lemma {:induction false} FirstWrongMessage(e: Endian)
    ensures var m := AllOnes(65538);
            |m| == 131076 && Folded(U32(WordSum(e, m))) != MAX16 - OnesSum(e, m)
  {
    AllOnesSum(e, 65538);
    ExactUnlessWrapped(e, AllOnes(65538));
  }

  function AllOnes(words: nat): (m: seq<byte>)
    ensures |m| == 2 * words
  {
    seq(2 * words, _ => 255)
  }

  lemma {:induction false} AllOnesSum(e: Endian, words: nat)
    ensures WordSum(e, AllOnes(words)) == MAX16 * words
  {
    if words > 0 {
      AllOnesSum(e, words - 1);
      assert AllOnes(words)[2..] == AllOnes(words - 1);
    }
  }

  // ----- verification by the receiver -----

  /** The message with the checksum stored at offset p. */
  function Put(e: Endian, m: seq<byte>, p: nat, c: word): (r: seq<byte>)
    requires p + 2 <= |m|
    ensures |r| == |m|
  {
    m[p := Stored(e, c)[0]][p + 1 := Stored(e, c)[1]]
  }

  lemma {:induction false} SumWithField(e: Endian, m: seq<byte>, p: nat, c: word)
    requires p % 2 == 0 && p + 2 <= |m| && m[p] == m[p + 1] == 0
    ensures WordSum(e, Put(e, m, p, c)) == WordSum(e, m) + c
  {
    var r := Put(e, m, p, c);
    if p == 0 {
      assert r[2..] == m[2..];
    } else {
      assert r[2..] == Put(e, m[2..], p - 2, c);
      SumWithField(e, m[2..], p - 2, c);
    }
  }

  /**
   * The receiver's test: with the checksum (or all ones in place of a zero checksum) in the field
   * that was zero, the checksum of the whole message is 0.
   */
  lemma {:induction false} ReceiverGetsZero(e: Endian, m: seq<byte>, p: nat, c: word)
    requires |m| <= 131074 && p % 2 == 0 && p + 2 <= |m| && m[p] == m[p + 1] == 0
    requires c == MAX16 - OnesSum(e, m) || (c == MAX16 && OnesSum(e, m) == MAX16)
    ensures Folded(U32(WordSum(e, Put(e, m, p, c)))) == 0
  {
    hide Folded, WordSum, OnesSum, Put;
    var s := WordSum(e, m);
    SumWithField(e, m, p, c);
    SumBound(e, Put(e, m, p, c));
    U32Small(s + c);
    FoldedIsCarried(s + c);
    OnesSumIsCarried(e, m);
    var k := CarriedResidue(s);
    CarriedIs(s + c, MAX16, if c == MAX16 - OnesSum(e, m) then k else k + 1);
  }

  // ----- byte order independence -----

  /** The sum of the bytes at even offsets. */
  function EvenBytes(m: seq<byte>): nat
  {
    if m == [] then 0 else if |m| == 1 then m[0] else m[0] + EvenBytes(m[2..])
  }

  lemma {:induction false} SumsByOrder(m: seq<byte>)
    ensures 256 * WordSum(Big, m) == WordSum(Little, m) + MAX16 * EvenBytes(m)
  {
    if |m| > 1 {
      SumsByOrder(m[2..]);
    }
  }

  /** in_cksum leaves the same two bytes in memory on hosts of either byte order, odd lengths included. */
  lemma {:induction false} SameBytesOnEitherHost(m: seq<byte>)
    requires |m| <= 131074
    ensures Stored(Big, Folded(U32(WordSum(Big, m)))) == Stored(Little, Folded(U32(WordSum(Little, m))))
  {
    SameComplement(m);
    ExactUpTo(Big, m);
    ExactUpTo(Little, m);
  }

  /** Up to 131074 bytes the accumulator cannot wrap. */
  lemma {:induction false} ExactUpTo(e: Endian, m: seq<byte>)
    requires |m| <= 131074
    ensures Folded(U32(WordSum(e, m))) == MAX16 - OnesSum(e, m)
  {
    hide Folded, Carried;
    SumBound(e, m);
    U32Small(WordSum(e, m));
    FoldedIsCarried(WordSum(e, m));
    OnesSumIsCarried(e, m);
  }

  lemma {:induction false} SameComplement(m: seq<byte>)
    ensures Stored(Big, MAX16 - OnesSum(Big, m)) == Stored(Little, MAX16 - OnesSum(Little, m))
  {
    OnesSumIsCarried(Big, m);
    OnesSumIsCarried(Little, m);
    SumsByOrder(m);
    var b, l := WordSum(Big, m), WordSum(Little, m);
    var k := CarriedResidue(b);
    var a := Carried(b);
    var swapped := a / 256 + a % 256 * 256;
    assert swapped == 256 * a - MAX16 * (a / 256);
    if b > 0 {
      assert l == swapped + MAX16 * (256 * k + a / 256 - EvenBytes(m));
      SumPositive(m);
      CarriedIs(l, swapped, 256 * k + a / 256 - EvenBytes(m));
    } else {
      SumPositive(m);
    }
    SwappedComplement(a);
  }

  lemma {:induction false} SumPositive(m: seq<byte>)
    ensures WordSum(Big, m) > 0 <==> WordSum(Little, m) > 0
  {
    if |m| > 1 {
      SumPositive(m[2..]);
    }
  }

  lemma {:induction false} SwappedComplement(a: word)
    ensures Stored(Big, MAX16 - a) == Stored(Little, MAX16 - (a / 256 + a % 256 * 256))
  {
    assert (MAX16 - a) / 256 == 255 - a / 256 && (MAX16 - a) % 256 == 255 - a % 256;
  }

  // ----- udp_write -----

  const HDRLEN := 28     // sizeof(struct udpiphdr): the 20-byte IP overlay and the UDP header
  const SUMOFF := 26     // ui_sum

  function NetworkOrder(x: nat): seq<byte>
  {
    Stored(Big, x % 0x10000)
  }

  /** The pseudo-header and UDP header that udp_write checksums, with the field at SUMOFF. */
  function Header(userlen: nat, src: seq<byte>, dst: seq<byte>, sport: seq<byte>, dport: seq<byte>,
                  sum: seq<byte>): (h: seq<byte>)
    requires |src| == |dst| == 4 && |sport| == |dport| == |sum| == 2
    ensures |h| == HDRLEN
  {
    [0, 0, 0, 0, 0, 0, 0, 0, 0, 17] + NetworkOrder(8 + userlen) + src + dst + sport + dport +
    NetworkOrder(8 + userlen) + sum
  }

  /** Where the fields are; lengths are in network byte order and count the UDP header. */
  lemma {:induction false} HeaderFields(userlen: nat, src: seq<byte>, dst: seq<byte>, sport: seq<byte>,
                                        dport: seq<byte>, sum: seq<byte>)
    requires |src| == |dst| == 4 && |sport| == |dport| == |sum| == 2
    ensures var h := Header(userlen, src, dst, sport, dport, sum);
            && (forall i :: 0 <= i < 9 ==> h[i] == 0) && h[9] == 17
            && h[10] as int * 256 + h[11] as int == (8 + userlen) % 65536 == h[24] as int * 256 + h[25] as int
            && h[12..16] == src && h[16..20] == dst && h[20..22] == sport && h[22..24] == dport
            && h[26..28] == sum
  {
    var len := NetworkOrder(8 + userlen);
    assert Load(Big, len[0], len[1]) == (8 + userlen) % 65536;
    hide NetworkOrder;
  }

  /** Lines 37-48: the header with a zero checksum field, in front of the user data. */
  method FillHeader(buf: array<byte>, h: seq<byte>)
    requires |h| == HDRLEN <= buf.Length
    modifies buf
    ensures buf[..] == h + old(buf[HDRLEN..])
  {
    forall k | 0 <= k < HDRLEN {
      buf[k] := h[k];
    }
  }

  /**
   * udp_write up to the checksum, on a buffer with the user data behind the header; `sum` is the
   * value of ui_sum. It is never zero when a checksum is sent, and the receiver's test gives zero.
   */
  method UdpWrite(e: Endian, buf: array<byte>, userlen: nat, src: seq<byte>, dst: seq<byte>, sport: seq<byte>,
                  dport: seq<byte>, zerosum: bool) returns (sum: word)
    requires |src| == |dst| == 4 && |sport| == |dport| == 2
    requires HDRLEN + userlen <= buf.Length && HDRLEN + userlen <= 131074
    modifies buf
    ensures buf[..] == Header(userlen, src, dst, sport, dport, Stored(e, sum)) + old(buf[HDRLEN..])
    ensures sum == 0 <==> zerosum
    ensures !zerosum ==> Folded(U32(WordSum(e, buf[..HDRLEN + userlen]))) == 0
  {
    hide Folded, U32, WordSum, OnesSum, NetworkOrder;
    var blank := Header(userlen, src, dst, sport, dport, [0, 0]);
    assert Stored(e, 0) == [0, 0];
    FillHeader(buf, blank);
    sum := 0;
    if !zerosum {
      ghost var m := buf[..HDRLEN + userlen];
      assert m[..HDRLEN] == blank;
      sum := InCksum(e, buf[..HDRLEN + userlen]);
      if sum == 0 {
        sum := MAX16;
      }
      ReceiverGetsZero(e, m, SUMOFF, sum);
      var b := Stored(e, sum);
      buf[SUMOFF], buf[SUMOFF + 1] := b[0], b[1];
      assert buf[..HDRLEN + userlen] == Put(e, m, SUMOFF, sum);
      assert buf[..HDRLEN] == Header(userlen, src, dst, sport, dport, b);
      assert buf[HDRLEN..] == old(buf[HDRLEN..]);
      assert buf[..] == buf[..HDRLEN] + buf[HDRLEN..];
    }
  }
}
