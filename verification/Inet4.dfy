/**
 * Dotted-decimal IPv4 text: inet_ntop4 prints four bytes, inet_pton4 parses them back.
 * Source: unpv13e/libfree/inet_ntop.c, unpv13e/libfree/inet_pton.c.
 */
module Inet4 {
  import opened Counting

  // ----- printing -----

  function DecChar(d: nat): char
    requires d < 10
  {
    ('0' as int + d) as char
  }

  /** What the "%u" conversion prints: decimal, no leading zeros. */
  function Dec(n: nat): string
  {
    if n < 10 then [DecChar(n)] else Dec(n / 10) + [DecChar(n % 10)]
  }

  function Dotted(a: seq<byte>): string
    requires |a| == 4
  {
    Dec(a[0]) + "." + Dec(a[1]) + "." + Dec(a[2]) + "." + Dec(a[3])
  }

  lemma {:induction false} DecLength(b: byte)
    ensures 1 <= |Dec(b)| <= 3
  {
    assert b >= 10 ==> Dec(b) == Dec(b / 10) + [DecChar(b % 10)];
    assert b >= 100 ==> Dec(b / 10) == Dec(b / 100) + [DecChar(b / 10 % 10)];
  }

  lemma {:induction false} DottedLength(a: seq<byte>)
    requires |a| == 4
    ensures 7 <= |Dotted(a)| <= 15
  {
    DecLength(a[0]);
    DecLength(a[1]);
    DecLength(a[2]);
    DecLength(a[3]);
  }

  /** inet_ntop4: None is the ENOSPC return. */
  method InetNtop4(src: seq<byte>, size: nat) returns (r: Option<string>)
    requires |src| == 4
    ensures r == Ntop4(src, size)
  {
    var tmp := Dec(src[0]) + "." + Dec(src[1]) + "." + Dec(src[2]) + "." + Dec(src[3]);
    if |tmp| > size {
      return None;
    }
    return Some(tmp);
  }

  /** The text, unless it is longer than `size`; its terminating NUL is not counted. */
  function Ntop4(src: seq<byte>, size: nat): Option<string>
    requires |src| == 4
  {
    if |Dotted(src)| > size then None else Some(Dotted(src))
  }

  /** A text that is returned fits with its terminator if and only if it has not exactly `size` characters. */
  lemma {:induction false} TerminatorFits(src: seq<byte>, size: nat)
    requires |src| == 4
    ensures (Ntop4(src, size).Some? ==> |Ntop4(src, size).value| + 1 <= size) <==> |Dotted(src)| != size
    ensures size >= 16 ==> Ntop4(src, size).Some? && |Ntop4(src, size).value| + 1 <= size
  {
    DottedLength(src);
  }

  /** Eight characters for a size of eight: there is no room for the NUL. */
  lemma {:induction false} TerminatorLeftOut()
    ensures Ntop4([10, 0, 0, 1], 8) == Some("10.0.0.1")
  {
    assert Dec(10) == Dec(1) + Dec(0);
    assert Dotted([10, 0, 0, 1]) == "10.0.0.1";
  }

  // ----- parsing -----

  predicate IsDigit(c: char)
  {
    '0' <= c <= '9'
  }

  function DigitVal(c: char): nat
    requires IsDigit(c)
  {
    c as int - '0' as int
  }

  /**
   * The parser's state is the octets already closed by a dot, the octet being read, and
   * whether that octet has a digit yet.
   */
  function Scan4(s: string, done: seq<byte>, cur: byte, sawDigit: bool): (r: Option<seq<byte>>)
    requires |done| <= 3
    ensures r.Some? ==> |r.value| == 4
    decreases |s|
  {
    if s == [] then
      if |done| == 3 && sawDigit then Some(done + [cur]) else None
    else if IsDigit(s[0]) then
      var n := cur * 10 + DigitVal(s[0]);
      if n > 255 then None else Scan4(s[1..], done, n, true)
    else if s[0] == '.' && sawDigit && |done| < 3 then
      Scan4(s[1..], done + [cur], 0, false)
    else
      None
  }

  function Pton4(src: string): (r: Option<seq<byte>>)
    ensures r.Some? ==> |r.value| == 4
  {
    Scan4(src, [], 0, false)
  }

  /**
   * inet_pton4, storing the four octets at dst[off..]. The buffer is untouched unless the
   * call returns true.
   */
  method InetPton4(src: string, dst: array<byte>, off: nat) returns (ok: bool)
    requires off + 4 <= dst.Length
    modifies dst
    ensures ok == Pton4(src).Some?
    ensures !ok ==> dst[..] == old(dst[..])
    ensures ok ==> dst[..] == old(dst[..off]) + Pton4(src).value + old(dst[off + 4..])
  {
    var sawDigit, octets := false, 0;
    var tmp := new byte[4](_ => 0);
    var tp := 0;
    var i := 0;
    while i < |src|
      invariant 0 <= i <= |src| && 0 <= tp <= 3
      invariant octets == tp + (if sawDigit then 1 else 0)
      invariant dst[..] == old(dst[..])
      invariant Scan4(src[i..], tmp[..tp], tmp[tp], sawDigit) == Pton4(src)
    {
      var ch := src[i];
      assert src[i..][0] == ch && src[i..][1..] == src[i + 1..];
      i := i + 1;
      if IsDigit(ch) {
        var n := tmp[tp] * 10 + DigitVal(ch);
        if n > 255 {
          return false;
        }
        tmp[tp] := n;
        if !sawDigit {
          octets := octets + 1;
          if octets > 4 {
            return false;
          }
          sawDigit := true;
        }
      } else if ch == '.' && sawDigit {
        if octets == 4 {
          return false;
        }
        tp := tp + 1;
        tmp[tp] := 0;
        assert tmp[..tp] == tmp[..tp - 1] + [tmp[tp - 1]];
        sawDigit := false;
      } else {
        return false;
      }
    }
    if octets < 4 {
      return false;
    }
    assert tmp[..3] + [tmp[3]] == tmp[..];
    forall k | 0 <= k < 4 {
      dst[off + k] := tmp[k];
    }
    return true;
  }

  // ----- parsing inverts printing -----

  /** Reading the digits of n into a fresh octet leaves the octet equal to n. */
  lemma {:induction false} ScanDec(n: byte, rest: string, done: seq<byte>)
    requires |done| <= 3
    ensures Scan4(Dec(n) + rest, done, 0, false) == Scan4(rest, done, n, true)
  {
    if n < 10 {
      assert (Dec(n) + rest)[1..] == rest;
    } else {
      ScanDec(n / 10, [DecChar(n % 10)] + rest, done);
      assert Dec(n) + rest == Dec(n / 10) + ([DecChar(n % 10)] + rest);
      assert ([DecChar(n % 10)] + rest)[1..] == rest;
    }
  }

  lemma {:induction false} ScanDecDot(n: byte, rest: string, done: seq<byte>)
    requires |done| <= 2
    ensures Scan4(Dec(n) + "." + rest, done, 0, false) == Scan4(rest, done + [n], 0, false)
  {
    assert Dec(n) + "." + rest == Dec(n) + ("." + rest);
    ScanDec(n, "." + rest, done);
    assert ("." + rest)[1..] == rest;
  }

  lemma {:induction false} ParseDotted(a: seq<byte>)
    requires |a| == 4
    ensures Pton4(Dotted(a)) == Some(a)
  {
    var s3 := Dec(a[3]);
    var s2 := Dec(a[2]) + "." + s3;
    var s1 := Dec(a[1]) + "." + s2;
    assert Dotted(a) == Dec(a[0]) + "." + s1;
    ScanDecDot(a[0], s1, []);
    ScanDecDot(a[1], s2, [] + [a[0]]);
    ScanDecDot(a[2], s3, [] + [a[0]] + [a[1]]);
    var done := [] + [a[0]] + [a[1]] + [a[2]];
    assert s3 == s3 + [];
    ScanDec(a[3], [], done);
    assert done + [a[3]] == a;
  }

  // ----- the digits -----

  /** The table of the source, and what it means for the two conversions. */
  lemma {:induction false} DigitTable(c: char, d: nat)
    requires d < 10
    ensures DecChar(d) == "0123456789"[d]
    ensures "0123456789"[d] == c <==> IsDigit(c) && DigitVal(c) == d
  {
  }

  /** Decimal without leading zeros. */
  lemma {:induction false} DecCanonical(n: nat)
    ensures Dec(n) != [] && AllDigits(Dec(n)) && (n > 0 ==> Dec(n)[0] != '0') && (n == 0 ==> Dec(n) == "0")
    ensures Value(0, Dec(n)) == n
  {
    if n >= 10 {
      DecCanonical(n / 10);
      ValueSnoc(0, Dec(n / 10), DecChar(n % 10));
    }
  }

  lemma {:induction false} ValueSnoc(cur: nat, t: string, c: char)
    requires AllDigits(t) && IsDigit(c)
    ensures AllDigits(t + [c]) && Value(cur, t + [c]) == Value(cur, t) * 10 + DigitVal(c)
    decreases |t|
  {
    if t != [] {
      ValueSnoc(cur * 10 + DigitVal(t[0]), t[1..], c);
      assert (t + [c])[1..] == t[1..] + [c];
    }
  }

  /** The printed text is the four numbers with dots between them. */
  lemma {:induction false} DottedFields(a: seq<byte>)
    requires |a| == 4
    ensures Fields(Dotted(a), '.') == [Dec(a[0]), Dec(a[1]), Dec(a[2]), Dec(a[3])]
  {
    forall i | 0 <= i < 4 ensures '.' !in Dec(a[i]) {
      DecCanonical(a[i]);
    }
    hide Dec, Fields;
    var s2 := Dec(a[2]) + "." + Dec(a[3]);
    var s1 := Dec(a[1]) + "." + s2;
    assert Dotted(a) == Dec(a[0]) + "." + s1;
    FieldsCons(Dec(a[0]), s1, '.');
    FieldsCons(Dec(a[1]), s2, '.');
    FieldsCons(Dec(a[2]), Dec(a[3]), '.');
    FieldsOne(Dec(a[3]), '.');
  }

  // ----- exactly which texts are accepted -----

  /** The text between the separators. */
  function Fields(s: string, sep: char): (fs: seq<string>)
    ensures fs != []
  {
    if s == [] then [""]
    else
      var fs := Fields(s[1..], sep);
      if s[0] == sep then [""] + fs else [[s[0]] + fs[0]] + fs[1..]
  }

  /** A text without the separator extends the first field. */
  lemma {:induction false} FieldsHead(t: string, s: string, sep: char)
    requires sep !in t
    ensures Fields(t + s, sep) == [t + Fields(s, sep)[0]] + Fields(s, sep)[1..]
  {
    if t == [] {
      assert t + s == s && t + Fields(s, sep)[0] == Fields(s, sep)[0];
    } else {
      FieldsHead(t[1..], s, sep);
      assert (t + s)[1..] == t[1..] + s;
      assert t + Fields(s, sep)[0] == [t[0]] + (t[1..] + Fields(s, sep)[0]);
    }
  }

  /** A field followed by a separator. */
  lemma {:induction false} FieldsCons(t: string, s: string, sep: char)
    requires sep !in t
    ensures Fields(t + [sep] + s, sep) == [t] + Fields(s, sep)
  {
    assert t + [sep] + s == t + ([sep] + s);
    assert ([sep] + s)[1..] == s;
    assert Fields([sep] + s, sep) == [""] + Fields(s, sep);
    FieldsHead(t, [sep] + s, sep);
    assert t + "" == t;
  }

  lemma {:induction false} FieldsOne(t: string, sep: char)
    requires sep !in t
    ensures Fields(t, sep) == [t]
  {
    FieldsHead(t, "", sep);
    assert t + "" == t;
  }

  predicate AllDigits(t: string)
  {
    forall i :: 0 <= i < |t| ==> IsDigit(t[i])
  }

  /** The value of the digits t after digits of value cur. */
  function Value(cur: nat, t: string): (v: nat)
    requires AllDigits(t)
    ensures v >= cur
    decreases |t|
  {
    if t == [] then cur else Value(cur * 10 + DigitVal(t[0]), t[1..])
  }

  predicate Octet(t: string)
  {
    t != [] && AllDigits(t) && Value(0, t) < 256
  }

  predicate AllOctets(fs: seq<string>)
  {
    forall i :: 0 <= i < |fs| ==> Octet(fs[i])
  }

  function Octets(fs: seq<string>): (a: seq<byte>)
    requires AllOctets(fs)
    ensures |a| == |fs|
  {
    seq(|fs|, i requires 0 <= i < |fs| => assert Octet(fs[i]); Value(0, fs[i]))
  }

  /**
   * inet_pton4 accepts exactly four decimal numbers below 256 with dots between them, leading
   * zeros allowed, and returns their values.
   */
  lemma {:induction false} Pton4Exact(s: string)
    ensures var fs := Fields(s, '.');
            Pton4(s) == if |fs| == 4 && AllOctets(fs) then Some(Octets(fs)) else None
  {
    hide Fields, Scan4, AllOctets, AllDigits, Value, Octets, Resumed;
    var fs := Fields(s, '.');
    ScanFields(s, [], 0, false);
    AtDot(fs, [], 0);
    if AllOctets(fs) {
      assert [] + Resumed(0, fs) == Resumed(0, fs);
    }
  }

  /** The scan in the middle of a field: its first digits have value cur. */
  predicate Resumes(cur: byte, sawDigit: bool, t: string)
  {
    AllDigits(t) && Value(cur, t) < 256 && (sawDigit || t != [])
  }

  function Resumed(cur: byte, fs: seq<string>): seq<byte>
    requires fs != [] && Resumes(cur, true, fs[0]) && AllOctets(fs[1..])
  {
    [Value(cur, fs[0])] + Octets(fs[1..])
  }

  lemma {:induction false} ScanFields(s: string, done: seq<byte>, cur: byte, sawDigit: bool)
    requires |done| <= 3
    ensures var fs := Fields(s, '.');
            Scan4(s, done, cur, sawDigit) ==
              if |done| + |fs| == 4 && Resumes(cur, sawDigit, fs[0]) && AllOctets(fs[1..])
              then Some(done + Resumed(cur, fs)) else None
    decreases |s|
  {
    var fs := Fields(s, '.');
    if s == [] {
      assert fs == [""] && Octets(fs[1..]) == [];
      assert Resumes(cur, sawDigit, "") <==> sawDigit;
      if sawDigit {
        assert Resumed(cur, fs) == [cur];
      }
    } else if IsDigit(s[0]) {
      var n := cur * 10 + DigitVal(s[0]);
      var t := Fields(s[1..], '.')[0];
      FieldHead(cur, s[0], t);
      if n < 256 {
        ScanFields(s[1..], done, n, true);
        assert fs[1..] == Fields(s[1..], '.')[1..];
      }
    } else if s[0] == '.' {
      if sawDigit && |done| < 3 {
        var rest := Fields(s[1..], '.');
        ScanFields(s[1..], done + [cur], 0, false);
        assert fs[1..] == rest;
        AtDot(rest, done, cur);
        if AllOctets(rest) {
          assert Resumed(cur, fs) == [cur] + Octets(rest);
        }
      }
    } else {
      assert !AllDigits(fs[0]) by {
        assert fs[0][0] == s[0];
      }
    }
  }

  lemma {:induction false} FieldHead(cur: nat, c: char, t: string)
    requires IsDigit(c)
    ensures AllDigits([c] + t) <==> AllDigits(t)
    ensures AllDigits(t) ==> Value(cur, [c] + t) == Value(cur * 10 + DigitVal(c), t)
  {
    assert ([c] + t)[1..] == t;
    assert forall i :: 0 <= i < |t| ==> ([c] + t)[i + 1] == t[i];
  }

  /** At the start of a field, what is to come is fields and nothing else. */
  lemma {:induction false} AtDot(fs: seq<string>, done: seq<byte>, cur: byte)
    requires fs != []
    ensures AllOctets(fs) <==> Resumes(0, false, fs[0]) && AllOctets(fs[1..])
    ensures AllOctets(fs) ==>
              && Resumed(0, fs) == Octets(fs)
              && (done + [cur]) + Resumed(0, fs) == done + ([cur] + Octets(fs))
  {
    assert forall i :: 0 < i < |fs| ==> fs[i] == fs[1..][i - 1];
  }
}
