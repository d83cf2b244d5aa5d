/**
 * IPv6 text (section 2.2 of RFC 1884, now section 2.2 of RFC 4291): inet_ntop6 prints sixteen
 * bytes with "::" for the leftmost longest run of zero words, inet_pton6 parses the text back.
 * Source: unpv13e/libfree/inet_ntop.c, unpv13e/libfree/inet_pton.c.
 */
module Inet6 {
  import opened Counting
  import opened Inet4

  // ----- words and the choice of "::" -----

  function Word(hi: byte, lo: byte): word
  {
    hi as int * 256 + lo as int
  }

  /** The words of an address, most significant byte first. */
  function Words(a: seq<byte>): (ws: seq<word>)
    requires |a| % 2 == 0
    ensures |ws| == |a| / 2
  {
    if a == [] then [] else [Word(a[0], a[1])] + Words(a[2..])
  }

  function Pair(w: word): seq<byte>
  {
    [w / 256, w % 256]
  }

  function Bytes(ws: seq<word>): (a: seq<byte>)
    ensures |a| == 2 * |ws|
  {
    if ws == [] then [] else Pair(ws[0]) + Bytes(ws[1..])
  }

  lemma {:induction false} WordsAt(a: seq<byte>, k: nat)
    requires |a| % 2 == 0 && 2 * k + 1 < |a|
    ensures Words(a)[k] == Word(a[2 * k], a[2 * k + 1])
  {
    if k > 0 {
      WordsAt(a[2..], k - 1);
    }
  }

  lemma {:induction false} BytesCons(w: word, ws: seq<word>)
    ensures Bytes([w] + ws) == Pair(w) + Bytes(ws)
  {
    assert ([w] + ws)[1..] == ws;
  }

  lemma {:induction false} BytesOfWords(a: seq<byte>)
    requires |a| % 2 == 0
    ensures Bytes(Words(a)) == a
  {
    if a != [] {
      BytesOfWords(a[2..]);
      BytesCons(Word(a[0], a[1]), Words(a[2..]));
      hide Bytes;
      assert Pair(Word(a[0], a[1])) == [a[0], a[1]];
      assert a == [a[0], a[1]] + a[2..];
    }
  }

  lemma {:induction false} BytesConcat(u: seq<word>, v: seq<word>)
    ensures Bytes(u + v) == Bytes(u) + Bytes(v)
  {
    if u == [] {
      assert u + v == v;
      assert Bytes(u) == [];
    } else {
      hide Bytes;
      var rest := u[1..];
      BytesConcat(rest, v);
      Regroup([u[0]], rest, v);
      assert u == [u[0]] + rest;
      BytesCons(u[0], rest);
      BytesCons(u[0], rest + v);
      Regroup(Pair(u[0]), Bytes(rest), Bytes(v));
    }
  }

  lemma {:induction false} BytesOne(ws: seq<word>)
    requires |ws| == 1
    ensures Bytes(ws) == Pair(ws[0])
  {
  }

  lemma {:induction false} BytesSnoc(ws: seq<word>)
    requires ws != []
    ensures Bytes(ws) == Bytes(ws[..|ws| - 1]) + Pair(ws[|ws| - 1])
  {
    hide Bytes;
    var front, last := ws[..|ws| - 1], [ws[|ws| - 1]];
    assert ws == front + last;
    BytesConcat(front, last);
    BytesOne(last);
  }

  lemma {:induction false} BytesOfZeros(ws: seq<word>)
    requires forall k :: 0 <= k < |ws| ==> ws[k] == 0
    ensures Bytes(ws) == Zeros(2 * |ws|)
  {
    if ws != [] {
      BytesOfZeros(ws[1..]);
      assert Pair(0) + Zeros(2 * |ws| - 2) == Zeros(2 * |ws|);
    }
  }

  function Zeros(n: nat): seq<byte>
  {
    seq(n, _ => 0)
  }

  /** A run of words; base -1 means that no run is shortened. */
  datatype Run = Run(base: int, len: nat)

  ghost predicate IsZeroRun(ws: seq<word>, base: int, len: nat)
  {
    0 <= base && base + len <= |ws| && forall k :: base <= k < base + len ==> ws[k] == 0
  }

  /** The run that "::" must stand for: two or more zero words, longest, and leftmost among those. */
  ghost predicate LeftmostLongest(ws: seq<word>, r: Run)
  {
    if r.base == -1 then
      forall b: int, l: nat :: IsZeroRun(ws, b, l) ==> l < 2
    else
      && r.len >= 2
      && IsZeroRun(ws, r.base, r.len)
      && forall b: int, l: nat :: IsZeroRun(ws, b, l) ==> l < r.len || (l == r.len && r.base <= b)
  }

  lemma {:induction false} LeftmostLongestIsUnique(ws: seq<word>, r: Run, r': Run)
    requires LeftmostLongest(ws, r) && LeftmostLongest(ws, r')
    ensures r.base == r'.base && (r.base != -1 ==> r == r')
  {
    if r.base != -1 {
      assert IsZeroRun(ws, r.base, r.len);
    }
    if r'.base != -1 {
      assert IsZeroRun(ws, r'.base, r'.len);
    }
  }

  /** `best` beats every zero run that ends strictly before `bound`. */
  ghost predicate BeatsRunsBefore(ws: seq<word>, best: Run, bound: int)
  {
    forall b: int, l: nat :: IsZeroRun(ws, b, l) && l > 0 && b + l <= bound ==>
      best.base != -1 && (l < best.len || (l == best.len && best.base <= b))
  }

  /** The search loop of inet_ntop6, with its two-variable state best/cur. */
  method FindBestRun(words: array<word>) returns (best: Run)
    ensures LeftmostLongest(words[..], best)
  {
    best := Run(-1, 0);
    var cur := Run(-1, 0);
    var i := 0;
    while i < words.Length
      invariant 0 <= i <= words.Length
      invariant best.base != -1 ==> best.len >= 1 && IsZeroRun(words[..], best.base, best.len)
      invariant cur.base != -1 ==> cur.len >= 1 && cur.base + cur.len == i && IsZeroRun(words[..], cur.base, cur.len)
      invariant var start := if cur.base == -1 then i else cur.base;
                && 0 <= start
                && (start > 0 && cur.base != -1 ==> words[start - 1] != 0)
                && (cur.base == -1 && i > 0 ==> words[i - 1] != 0)
                && BeatsRunsBefore(words[..], best, start)
                && (best.base != -1 ==> best.base + best.len <= start)
    {
      if words[i] == 0 {
        if cur.base == -1 {
          cur := Run(i, 1);
        } else {
          cur := Run(cur.base, cur.len + 1);
        }
      } else {
        if cur.base != -1 {
          RunWithin(words[..], cur, i);
          if best.base == -1 || cur.len > best.len {
            best := cur;
          }
          cur := Run(-1, cur.len);
        }
      }
      i := i + 1;
    }
    if cur.base != -1 {
      RunWithin(words[..], cur, i);
      if best.base == -1 || cur.len > best.len {
        best := cur;
      }
    }
    assert BeatsRunsBefore(words[..], best, words.Length);
    if best.base != -1 && best.len < 2 {
      best := Run(-1, best.len);
    }
  }

  /**
   * When a nonzero word (or the start) stands before `cur`, a zero run that ends by the end of
   * `cur` either ends before `cur` or lies inside it.
   */
  lemma {:induction false} RunWithin(ws: seq<word>, cur: Run, end: int)
    requires 0 <= cur.base && cur.base + cur.len == end <= |ws|
    requires cur.base > 0 ==> ws[cur.base - 1] != 0
    ensures forall b: int, l: nat :: IsZeroRun(ws, b, l) && l > 0 && b + l <= end ==>
              b + l <= cur.base || (cur.base <= b && l <= cur.len)
  {
    assert cur.base > 0 ==> ws[cur.base - 1] != 0;
    forall b: int, l: nat | IsZeroRun(ws, b, l) && l > 0 && b + l <= end && b + l > cur.base
      ensures cur.base <= b && l <= cur.len
    {
      if b < cur.base {
        assert false;
      }
    }
  }

  ghost function BestRun(ws: seq<word>): (r: Run)
    ensures LeftmostLongest(ws, r)
  {
    BestRunExists(ws);
    var r :| LeftmostLongest(ws, r);
    r
  }

  /** Every word sequence has a best run: extend the best run of the sequence without its last word. */
  lemma {:induction false} BestRunExists(ws: seq<word>)
    ensures exists r :: LeftmostLongest(ws, r)
  {
    var n := LongestLength(ws, |ws|);
    if n < 2 {
      assert LeftmostLongest(ws, Run(-1, 0));
    } else {
      var b := LeftmostOfLength(ws, n, 0);
      assert LeftmostLongest(ws, Run(b, n));
    }
  }

  /** The greatest length up to `bound` of a zero run. */
  lemma {:induction false} LongestLength(ws: seq<word>, bound: nat) returns (n: nat)
    requires forall b: int, l: nat :: IsZeroRun(ws, b, l) ==> l <= bound
    ensures exists b :: IsZeroRun(ws, b, n)
    ensures forall b: int, l: nat :: IsZeroRun(ws, b, l) ==> l <= n
    decreases bound
  {
    if b :| IsZeroRun(ws, b, bound) {
      n := bound;
    } else if bound == 0 {
      assert IsZeroRun(ws, 0, 0);
    } else {
      n := LongestLength(ws, bound - 1);
    }
  }

  /** The first start, from `from` on, of a zero run of length n. */
  lemma {:induction false} LeftmostOfLength(ws: seq<word>, n: nat, from: nat) returns (b: nat)
    requires exists b' :: IsZeroRun(ws, b', n)
    requires forall b' :: IsZeroRun(ws, b', n) ==> from <= b'
    ensures IsZeroRun(ws, b, n)
    ensures forall b' :: IsZeroRun(ws, b', n) ==> b <= b'
    decreases |ws| - from
  {
    if IsZeroRun(ws, from, n) {
      b := from;
    } else {
      b := LeftmostOfLength(ws, n, from + 1);
    }
  }

  // ----- printing -----

  function HexChar(d: nat): char
    requires d < 16
  {
    (if d < 10 then '0' as int + d else 'a' as int + d - 10) as char
  }

  /** What the "%x" conversion prints: lower-case hexadecimal, no leading zeros. */
  function Hex(w: nat): string
  {
    if w < 16 then [HexChar(w)] else Hex(w / 16) + [HexChar(w % 16)]
  }

  /** Words in hexadecimal, separated by colons. */
  function Groups(ws: seq<word>): string
  {
    if ws == [] then ""
    else if |ws| == 1 then Hex(ws[0])
    else Groups(ws[..|ws| - 1]) + ":" + Hex(ws[|ws| - 1])
  }

  /** An IPv4-compatible or IPv4-mapped address ends in dotted decimal. */
  predicate EmbedsIPv4(ws: seq<word>, best: Run)
    requires |ws| == 8
  {
    best.base == 0 && (best.len == 6 || (best.len == 5 && ws[5] == 0xffff))
  }

  function Shortened(pre: seq<word>, suf: seq<word>): string
  {
    Groups(pre) + "::" + Groups(suf)
  }

  function Embedded(mapped: bool, b: seq<byte>): string
    requires |b| == 4
  {
    (if mapped then "::ffff:" else "::") + Dotted(b)
  }

  /** The text form of the address `a` when `best` is the run written as "::". */
  function TextWith(a: seq<byte>, best: Run): string
    requires |a| == 16
    requires best.base == -1 || (0 <= best.base && best.base + best.len <= 8)
  {
    var ws := Words(a);
    if best.base == -1 then Groups(ws)
    else if EmbedsIPv4(ws, best) then
      Embedded(best.len == 5, a[12..])
    else
      Shortened(ws[..best.base], ws[best.base + best.len..])
  }

  ghost function Text6(a: seq<byte>): string
    requires |a| == 16
  {
    TextWith(a, BestRun(Words(a)))
  }

  /** What the formatting loop has written before iteration i. */
  ghost function Written(ws: seq<word>, best: Run, i: nat): string
    requires |ws| == 8 && i <= 8
    requires best.base == -1 || (0 <= best.base && best.base + best.len <= 8)
  {
    if best.base == -1 || i <= best.base then Groups(ws[..i])
    else if i <= best.base + best.len then Groups(ws[..best.base]) + ":"
    else Shortened(ws[..best.base], ws[best.base + best.len..i])
  }

  lemma {:induction false} GroupsSnoc(ws: seq<word>, lo: nat, i: nat)
    requires lo <= i < |ws|
    ensures Groups(ws[lo..i + 1]) == (if lo == i then "" else Groups(ws[lo..i]) + ":") + Hex(ws[i])
  {
    var g := ws[lo..i + 1];
    assert g[..|g| - 1] == ws[lo..i] && g[|g| - 1] == ws[i];
  }

  lemma {:induction false} WrittenNone(ws: seq<word>, best: Run)
    requires |ws| == 8
    requires best.base == -1 || (0 <= best.base && best.base + best.len <= 8)
    ensures Written(ws, best, 0) == ""
  {
    assert ws[..0] == [];
  }

  /** What one iteration of the formatting loop appends. */
  lemma {:induction false} WrittenStep(ws: seq<word>, best: Run, i: nat)
    requires |ws| == 8 && i < 8
    requires best.base == -1 || (0 <= best.base && best.len >= 2 && best.base + best.len <= 8)
    ensures best.base != -1 && best.base <= i < best.base + best.len ==>
              Written(ws, best, i + 1) == if i == best.base then Written(ws, best, i) + ":" else Written(ws, best, i)
    ensures !(best.base != -1 && best.base <= i < best.base + best.len) ==>
              Written(ws, best, i + 1) == Written(ws, best, i) + ((if i != 0 then ":" else "") + Hex(ws[i]))
  {
    hide Groups, Hex;
    WrittenNone(ws, best);
    var end := best.base + best.len;
    if best.base == -1 || i < best.base {
      GroupsSnoc(ws, 0, i);
      assert ws[0..i] == ws[..i] && ws[0..i + 1] == ws[..i + 1];
    } else if i >= end {
      GroupsSnoc(ws, end, i);
      var head := Groups(ws[..best.base]);
      assert i == end ==> (head + ":") + (":" + Hex(ws[i])) == head + "::" + Hex(ws[i]);
      assert i > end ==>
          (head + "::" + Groups(ws[end..i])) + (":" + Hex(ws[i])) ==
          head + "::" + (Groups(ws[end..i]) + ":" + Hex(ws[i]));
    }
  }

  /** The tail after the loop when no dotted form was printed. */
  lemma {:induction false} WrittenAll(ws: seq<word>, best: Run)
    requires |ws| == 8
    requires best.base == -1 || (0 <= best.base && best.len >= 2 && best.base + best.len <= 8)
    ensures best.base == -1 ==> Written(ws, best, 8) == Groups(ws)
    ensures best.base != -1 ==>
              Shortened(ws[..best.base], ws[best.base + best.len..]) ==
              if best.base + best.len == 8 then Written(ws, best, 8) + ":" else Written(ws, best, 8)
  {
    assert ws[..8] == ws;
    if best.base != -1 {
      var end := best.base + best.len;
      assert ws[end..8] == ws[end..];
      assert end == 8 ==> Groups(ws[end..]) == "";
    }
  }

  lemma {:induction false} HexOfMappedWord()
    ensures Hex(0xffff) == "ffff"
  {
    assert Hex(0xffff) == Hex(0xfff) + "f" && Hex(0xfff) == Hex(0xff) + "f" && Hex(0xff) == Hex(0xf) + "f";
  }

  /** The loop stops at word 6 when the dotted form is printed. */
  lemma {:induction false} WrittenEmbedded(a: seq<byte>, best: Run)
    requires |a| == 16 && EmbedsIPv4(Words(a), best)
    ensures TextWith(a, best) == Written(Words(a), best, 6) + ":" + Dotted(a[12..])
    ensures |Written(Words(a), best, 6)| <= 6
  {
    var ws := Words(a);
    assert ws[..0] == [];
    if best.len == 5 {
      assert ws[5..6] == [0xffff];
      HexOfMappedWord();
    }
  }

  /** The bytewise copy into words. */
  method LoadWords(src: seq<byte>) returns (words: array<word>)
    requires |src| == 16
    ensures fresh(words) && words[..] == Words(src)
  {
    words := new word[8](_ => 0);
    for i := 0 to 16
      invariant forall k :: 0 <= k < i / 2 ==> words[k] == Word(src[2 * k], src[2 * k + 1])
      invariant i % 2 == 1 ==> words[i / 2] == Word(src[i - 1], 0)
      invariant forall k :: (i + 1) / 2 <= k < 8 ==> words[k] == 0
    {
      words[i / 2] := words[i / 2] + (if i % 2 == 0 then Word(src[i], 0) else src[i]);
    }
    assert words[..] == Words(src) by {
      forall k | 0 <= k < 8 ensures words[k] == Words(src)[k] {
        WordsAt(src, k);
      }
    }
  }

  /** inet_ntop6: None is the ENOSPC return; the terminating NUL counts against `size`. */
  method InetNtop6(src: seq<byte>, size: nat) returns (r: Option<string>)
    requires |src| == 16
    ensures r == if |Text6(src)| + 1 > size then None else Some(Text6(src))
  {
    var words := LoadWords(src);
    var best := FindBestRun(words);
    ghost var ws := words[..];
    assert BestRun(ws).base == best.base && (best.base != -1 ==> BestRun(ws) == best) by {
      LeftmostLongestIsUnique(ws, BestRun(ws), best);
    }
    assert best.base != -1 ==> IsZeroRun(ws, best.base, best.len);
    var tmp := FormatWords(src, words, best);
    if |tmp| + 1 > size {
      return None;
    }
    return Some(tmp);
  }

  /**
   * The dotted tail. The scratch buffer has 46 bytes, so the ENOSPC return of inet_ntop4
   * cannot happen here.
   */
  method AppendDotted(src: seq<byte>, best: Run, tmp: string) returns (out: string)
    requires |src| == 16 && EmbedsIPv4(Words(src), best)
    requires tmp == Written(Words(src), best, 6) + ":"
    ensures out == TextWith(src, best)
  {
    WrittenEmbedded(src, best);
    DottedLength(src[12..]);
    var dotted := InetNtop4(src[12..], 46 - |tmp|);
    out := tmp + dotted.value;
  }

  /** The formatting loop and the two tests after it. */
  method FormatWords(src: seq<byte>, words: array<word>, best: Run) returns (tmp: string)
    requires |src| == 16 && words[..] == Words(src)
    requires best.base == -1 || (0 <= best.base && best.len >= 2 && best.base + best.len <= 8)
    ensures tmp == TextWith(src, best)
  {
    hide Groups, Hex, Embedded, Shortened, Words;
    ghost var ws := words[..];
    tmp := "";
    WrittenNone(ws, best);
    var i := 0;
    var embedded := false;
    while i < 8 && !embedded
      invariant 0 <= i <= 8
      invariant !embedded ==> tmp == Written(ws, best, i) && (EmbedsIPv4(ws, best) ==> i <= 6)
      invariant embedded ==> EmbedsIPv4(ws, best) && tmp == TextWith(src, best)
    {
      WrittenStep(ws, best, i);
      if best.base != -1 && i >= best.base && i < best.base + best.len {
        if i == best.base {
          tmp := tmp + ":";
        }
      } else {
        if i != 0 {
          tmp := tmp + ":";
        }
        if i == 6 && best.base == 0 && (best.len == 6 || (best.len == 5 && words[5] == 0xffff)) {
          tmp := AppendDotted(src, best, tmp);
          embedded := true;
        } else {
          assert (tmp + Hex(ws[i])) == Written(ws, best, i) + ((if i != 0 then ":" else "") + Hex(ws[i]));
          tmp := tmp + Hex(words[i]);
        }
      }
      i := i + 1;
    }
    if !embedded {
      WrittenAll(ws, best);
    }
    if best.base != -1 && best.base + best.len == 8 {
      tmp := tmp + ":";
    }
  }

  // ----- parsing -----

  predicate IsHex(c: char)
  {
    '0' <= c <= '9' || 'a' <= c <= 'f' || 'A' <= c <= 'F'
  }

  function HexVal(c: char): (d: nat)
    requires IsHex(c)
    ensures d < 16
  {
    if '0' <= c <= '9' then c as int - '0' as int
    else if 'a' <= c <= 'f' then c as int - 'a' as int + 10
    else c as int - 'A' as int + 10
  }

  /** The bytes stored so far and the offset of "::" in them (-1 when none was seen). */
  datatype Parsed = Parsed(out: seq<byte>, colon: int)

  /**
   * The scanner. `s` is the text still to read, `tok` the text from the start of the current
   * token, `saw` whether the token has a digit and `val` its value.
   */
  function Scan6(s: string, tok: string, out: seq<byte>, colon: int, saw: bool, val: word): (r: Option<Parsed>)
    requires |out| <= 16 && -1 <= colon <= |out|
    ensures r.Some? ==> |r.value.out| <= 16 && -1 <= r.value.colon <= |r.value.out|
    decreases |s|
  {
    if s == [] then
      if !saw then Some(Parsed(out, colon))
      else if |out| + 2 > 16 then None
      else Some(Parsed(out + Pair(val), colon))
    else if IsHex(s[0]) then
      var v := val * 16 + HexVal(s[0]);
      if v > 0xffff then None else Scan6(s[1..], tok, out, colon, true, v)
    else if s[0] == ':' then
      if !saw then
        if colon != -1 then None else Scan6(s[1..], s[1..], out, |out|, false, val)
      else if |out| + 2 > 16 then None
      else Scan6(s[1..], s[1..], out + Pair(val), colon, false, 0)
    else if s[0] == '.' && |out| + 4 <= 16 && Pton4(tok).Some? then
      Some(Parsed(out + Pton4(tok).value, colon))
    else
      None
  }

  /**
   * The final shift: what follows "::" moves to the end and zeros fill the gap. When the
   * address was already full the shift copies each byte onto itself and then clears it.
   */
  function Shifted(out: seq<byte>, colon: nat): (a: seq<byte>)
    requires colon <= |out| <= 16
    ensures |a| == 16
  {
    if |out| < 16 then out[..colon] + Zeros(16 - |out|) + out[colon..]
    else out[..colon] + Zeros(16 - colon)
  }

  function Finish(p: Option<Parsed>): (r: Option<seq<byte>>)
    requires p.Some? ==> |p.value.out| <= 16 && -1 <= p.value.colon <= |p.value.out|
    ensures r.Some? ==> |r.value| == 16
  {
    if p == None then None
    else if p.value.colon != -1 then Some(Shifted(p.value.out, p.value.colon))
    else if |p.value.out| == 16 then Some(p.value.out)
    else None
  }

  function Pton6(src: string): (r: Option<seq<byte>>)
    ensures r.Some? ==> |r.value| == 16
  {
    if src != [] && src[0] == ':' then
      if |src| < 2 || src[1] != ':' then None
      else Finish(Scan6(src[1..], src[1..], [], -1, false, 0))
    else
      Finish(Scan6(src, src, [], -1, false, 0))
  }

  /** Byte k of the buffer `was` after i - 1 iterations of the shift loop. */
  ghost function Shifting(was: seq<byte>, tp: nat, i: nat, k: nat): byte
    requires |was| == 16 && tp <= 16 && 1 <= i <= tp + 1 && k < 16
  {
    if k <= tp - i then was[k]
    else if k > 16 - i && tp < 16 then was[k - (16 - tp)]
    else 0
  }

  /** The overlapping shift by hand: one loop copies the tail backwards and clears its source. */
  method ShiftTail(tmp: array<byte>, colon: nat, tp: nat)
    requires tmp.Length == 16 && colon <= tp <= 16
    requires forall k :: tp <= k < 16 ==> tmp[k] == 0
    modifies tmp
    ensures tmp[..] == Shifted(old(tmp[..tp]), colon)
  {
    ghost var was := tmp[..];
    var n := tp - colon;
    var i := 1;
    while i <= n
      invariant 1 <= i <= n + 1
      invariant forall k :: 0 <= k < 16 ==> tmp[k] == Shifting(was, tp, i, k)
    {
      tmp[16 - i] := tmp[colon + n - i];
      tmp[colon + n - i] := 0;
      i := i + 1;
    }
    assert forall k :: 0 <= k < 16 ==> tmp[k] == Shifted(was[..tp], colon)[k];
    assert was[..tp] == old(tmp[..tp]);
  }

  /** Appends one 16-bit word at tmp[tp]. */
  method StoreWord(tmp: array<byte>, tp: nat, val: word)
    requires tmp.Length == 16 && tp + 2 <= 16
    modifies tmp
    ensures tmp[..] == old(tmp[..tp]) + Pair(val) + old(tmp[tp + 2..])
  {
    tmp[tp], tmp[tp + 1] := val / 256, val % 256;
  }

  /**
   * The scanning loop and the store after it. `start` skips the first of two leading colons.
   * `tmp` receives the parsed bytes and is zero above tp.
   */
  method ScanText(src: string, start: nat, tmp: array<byte>) returns (ok: bool, tp: nat, colonp: int)
    requires start <= |src| && tmp.Length == 16 && forall k :: 0 <= k < 16 ==> tmp[k] == 0
    modifies tmp
    ensures tp <= 16
    ensures ok == Scan6(src[start..], src[start..], [], -1, false, 0).Some?
    ensures ok ==> Scan6(src[start..], src[start..], [], -1, false, 0) == Some(Parsed(tmp[..tp], colonp))
    ensures ok ==> forall k :: tp <= k < 16 ==> tmp[k] == 0
  {
    ghost var goal := Scan6(src[start..], src[start..], [], -1, false, 0);
    tp, colonp := 0, -1;
    var i, curtok := start, start;
    var sawXdigit, val := false, 0;
    assert tmp[..0] == [];
    var more := true;
    while more && i < |src|
      invariant 0 <= i <= |src| && 0 <= curtok <= |src| && 0 <= tp <= 16 && -1 <= colonp <= tp && 0 <= val < 0x10000
      invariant tmp[tp..] == Zeros(16 - tp)
      invariant more ==> goal == Scan6(src[i..], src[curtok..], tmp[..tp], colonp, sawXdigit, val)
      invariant !more ==> !sawXdigit && goal == Some(Parsed(tmp[..tp], colonp))
    {
      var ch := src[i];
      assert src[i..][0] == ch && src[i..][1..] == src[i + 1..];
      i := i + 1;
      if IsHex(ch) {
        var v := val * 16 + HexVal(ch);
        if v > 0xffff {
          ok := false;
          return;
        }
        val := v;
        sawXdigit := true;
      } else if ch == ':' {
        curtok := i;
        if !sawXdigit {
          if colonp != -1 {
            ok := false;
            return;
          }
          colonp := tp;
        } else {
          if tp + 2 > 16 {
            ok := false;
            return;
          }
          StoreWord(tmp, tp, val);
          tp := tp + 2;
          sawXdigit, val := false, 0;
        }
      } else {
        if !(ch == '.' && tp + 4 <= 16) {
          ok := false;
          return;
        }
        ok := InetPton4(src[curtok..], tmp, tp);
        if !ok {
          return;
        }
        tp := tp + 4;
        sawXdigit := false;
        more := false;
      }
    }
    ok := true;
    if sawXdigit {
      if tp + 2 > 16 {
        ok := false;
        return;
      }
      StoreWord(tmp, tp, val);
      tp := tp + 2;
    }
    assert tmp[..][tp..] == tmp[tp..];
    ZeroTail(tmp[..], tp);
  }

  lemma {:induction false} ZeroTail(a: seq<byte>, tp: nat)
    requires tp <= |a| && a[tp..] == Zeros(|a| - tp)
    ensures forall k :: tp <= k < |a| ==> a[k] == 0
  {
    forall k | tp <= k < |a| ensures a[k] == 0 {
      assert a[k] == a[tp..][k - tp];
    }
  }

  /** inet_pton6: `dst` is untouched unless the call returns true. */
  method InetPton6(src: string, dst: array<byte>) returns (ok: bool)
    requires dst.Length == 16
    modifies dst
    ensures ok == Pton6(src).Some?
    ensures dst[..] == if ok then Pton6(src).value else old(dst[..])
  {
    var tmp := new byte[16](_ => 0);
    var start := 0;
    assert src[0..] == src;
    if |src| > 0 && src[0] == ':' {
      start := 1;
      if |src| < 2 || src[1] != ':' {
        return false;
      }
    }
    var scanned, tp, colonp := ScanText(src, start, tmp);
    if !scanned {
      return false;
    }
    if colonp != -1 {
      ShiftTail(tmp, colonp, tp);
      tp := 16;
    }
    if tp != 16 {
      return false;
    }
    assert tmp[..16] == tmp[..];
    forall k | 0 <= k < 16 {
      dst[k] := tmp[k];
    }
    return true;
  }

  // ----- parsing inverts printing -----

  /** "::" is the gap of zeros it stands for exactly when the address was not already full, or the tail is zero. */
  lemma {:induction false} ShiftedIsTheGap(out: seq<byte>, colon: nat)
    requires colon <= |out| <= 16
    ensures Shifted(out, colon) == out[..colon] + Zeros(16 - |out|) + out[colon..]
            <==> |out| < 16 || out[colon..] == Zeros(16 - colon)
  {
    if |out| == 16 {
      var gap := out[..colon] + Zeros(0) + out[colon..];
      assert gap == out;
      assert Shifted(out, colon)[colon..] == Zeros(16 - colon);
    }
  }

  lemma {:induction false} ScanHex(w: word, rest: string, tok: string, out: seq<byte>, colon: int)
    requires |out| <= 16 && -1 <= colon <= |out|
    ensures Scan6(Hex(w) + rest, tok, out, colon, false, 0) == Scan6(rest, tok, out, colon, true, w)
  {
    if w < 16 {
      assert (Hex(w) + rest)[1..] == rest;
    } else {
      var tail := [HexChar(w % 16)] + rest;
      ScanHex(w / 16, tail, tok, out, colon);
      assert Hex(w) + rest == Hex(w / 16) + tail;
      assert tail[1..] == rest;
    }
  }

  lemma {:induction false} ScanGroups(ws: seq<word>, rest: string, tok: string, out: seq<byte>, colon: int)
    requires ws != [] && |out| + 2 * |ws| <= 16 && -1 <= colon <= |out|
    ensures Scan6(Groups(ws) + ":" + rest, tok, out, colon, false, 0) ==
            Scan6(rest, rest, out + Bytes(ws), colon, false, 0)
  {
    hide Bytes, Hex;
    var n := |ws| - 1;
    var tail := Hex(ws[n]) + (":" + rest);
    assert (":" + rest)[1..] == rest;
    if n == 0 {
      assert Groups(ws) + ":" + rest == tail;
      ScanHex(ws[n], ":" + rest, tok, out, colon);
      BytesOne(ws);
    } else {
      BytesSnoc(ws);
      assert Groups(ws) + ":" + rest == Groups(ws[..n]) + ":" + tail;
      ScanGroups(ws[..n], tail, tok, out, colon);
      ScanHex(ws[n], ":" + rest, tail, out + Bytes(ws[..n]), colon);
      assert out + Bytes(ws[..n]) + Pair(ws[n]) == out + Bytes(ws);
    }
  }

  lemma {:induction false} ScanLastGroups(ws: seq<word>, tok: string, out: seq<byte>, colon: int)
    requires |out| + 2 * |ws| <= 16 && -1 <= colon <= |out|
    ensures Scan6(Groups(ws), tok, out, colon, false, 0) == Some(Parsed(out + Bytes(ws), colon))
  {
    if ws != [] {
      var n := |ws| - 1;
      var last := Hex(ws[n]);
      assert last + [] == last;
      if n == 0 {
        ScanHex(ws[n], [], tok, out, colon);
        BytesOne(ws);
      } else {
        BytesSnoc(ws);
        ScanGroups(ws[..n], last, tok, out, colon);
        ScanHex(ws[n], [], last, out + Bytes(ws[..n]), colon);
        assert out + Bytes(ws[..n]) + Pair(ws[n]) == out + Bytes(ws);
      }
    } else {
      assert out + Bytes(ws) == out;
    }
  }

  lemma {:induction false} GroupsStart(ws: seq<word>)
    requires ws != []
    ensures Groups(ws) != [] && IsHex(Groups(ws)[0])
  {
    if |ws| == 1 {
      HexStart(ws[0]);
    } else {
      GroupsStart(ws[..|ws| - 1]);
    }
  }

  lemma {:induction false} HexStart(w: nat)
    ensures Hex(w) != [] && IsHex(Hex(w)[0])
  {
    if w >= 16 {
      HexStart(w / 16);
    }
  }

  /** The value the hexadecimal scanner accumulates over the decimal digits of n. */
  function DigitsAsHex(n: nat): nat
  {
    if n < 10 then n else DigitsAsHex(n / 10) * 16 + n % 10
  }

  lemma {:induction false} ScanDecAsHex(n: byte, rest: string, tok: string, out: seq<byte>, colon: int)
    requires |out| <= 16 && -1 <= colon <= |out|
    ensures DigitsAsHex(n) < 0x1000
    ensures n < 100 ==> DigitsAsHex(n) < 0x100
    ensures Scan6(Dec(n) + rest, tok, out, colon, false, 0) == Scan6(rest, tok, out, colon, true, DigitsAsHex(n))
  {
    if n < 10 {
      assert (Dec(n) + rest)[1..] == rest;
    } else {
      var tail := [DecChar(n % 10)] + rest;
      ScanDecAsHex(n / 10, tail, tok, out, colon);
      assert Dec(n) + rest == Dec(n / 10) + tail;
      assert tail[1..] == rest;
    }
  }

  /** The dotted tail: its first octet is first read as a hexadecimal token, then inet_pton4 takes over. */
  lemma {:induction false} ScanDotted(b: seq<byte>, out: seq<byte>, colon: int)
    requires |b| == 4 && |out| <= 12 && -1 <= colon <= |out|
    ensures Scan6(Dotted(b), Dotted(b), out, colon, false, 0) == Some(Parsed(out + b, colon))
  {
    var rest := "." + (Dec(b[1]) + "." + Dec(b[2]) + "." + Dec(b[3]));
    assert Dotted(b) == Dec(b[0]) + rest;
    ScanDecAsHex(b[0], rest, Dotted(b), out, colon);
    ParseDotted(b);
  }

  /** Text with "::" after some groups: what is scanned behind it is moved to the end. */
  lemma {:induction false} ParseGap(pre: seq<word>, text: string, tail: seq<byte>)
    requires 2 * |pre| + |tail| <= 16
    requires Scan6(text, text, Bytes(pre), 2 * |pre|, false, 0) == Some(Parsed(Bytes(pre) + tail, 2 * |pre|))
    ensures Pton6(Groups(pre) + "::" + text) == Some(Shifted(Bytes(pre) + tail, 2 * |pre|))
  {
    ScanGap(pre, text);
  }

  /** The parser comes to the text behind "::" with the bytes of the groups before it. */
  lemma {:induction false} ScanGap(pre: seq<word>, text: string)
    requires 2 * |pre| <= 16
    ensures Pton6(Groups(pre) + "::" + text) == Finish(Scan6(text, text, Bytes(pre), 2 * |pre|, false, 0))
  {
    var src := Groups(pre) + "::" + text;
    var mid := ":" + text;
    assert mid[1..] == text;
    if pre == [] {
      assert src[1..] == mid;
      assert Bytes(pre) == [];
    } else {
      GroupsStart(pre);
      assert src == Groups(pre) + ":" + mid;
      ScanGroups(pre, mid, src, [], -1);
      assert [] + Bytes(pre) == Bytes(pre);
    }
  }

  /** Text with "::" between two groups of words parses to those words and the zeros between them. */
  lemma {:induction false} ParseShortened(pre: seq<word>, text: string, tail: seq<byte>)
    requires 2 * |pre| + |tail| < 16
    requires Scan6(text, text, Bytes(pre), 2 * |pre|, false, 0) == Some(Parsed(Bytes(pre) + tail, 2 * |pre|))
    ensures Pton6(Groups(pre) + "::" + text) == Some(Bytes(pre) + Zeros(16 - 2 * |pre| - |tail|) + tail)
  {
    ParseGap(pre, text, tail);
    var out := Bytes(pre) + tail;
    assert out[..2 * |pre|] == Bytes(pre) && out[2 * |pre|..] == tail;
  }

  lemma {:induction false} Reassemble(a: seq<byte>, base: nat, len: nat)
    requires |a| == 16 && IsZeroRun(Words(a), base, len)
    ensures a == Bytes(Words(a)[..base]) + Zeros(2 * len) + Bytes(Words(a)[base + len..])
  {
    hide Bytes, Words;
    var ws := Words(a);
    var pre, run, suf := ws[..base], ws[base..base + len], ws[base + len..];
    assert ws == pre + (run + suf);
    BytesOfWords(a);
    BytesConcat(pre, run + suf);
    BytesConcat(run, suf);
    BytesOfZeros(run);
  }

  lemma {:induction false} ReassembleEmbedded(a: seq<byte>, mapped: bool)
    requires |a| == 16 && IsZeroRun(Words(a), 0, if mapped then 5 else 6)
    requires mapped ==> Words(a)[5] == 0xffff
    ensures a == if mapped then Zeros(10) + ([0xff, 0xff] + a[12..]) else Zeros(12) + a[12..]
  {
    hide Words;
    var ws := Words(a);
    var n := if mapped then 5 else 6;
    Reassemble(a, 0, n);
    assert ws[..0] == [];
    assert a == Zeros(2 * n) + Bytes(ws[n..]);
    if mapped {
      assert ws[5..] == [0xffff] + ws[6..];
      BytesConcat([0xffff], ws[6..]);
      assert Bytes([0xffff]) == [0xff, 0xff];
    }
    assert Bytes(ws[6..]) == a[12..];
  }

  lemma {:induction false} ParseEmbedded(mapped: bool, b: seq<byte>)
    requires |b| == 4
    ensures Pton6(Embedded(mapped, b)) ==
            Some(if mapped then Zeros(10) + ([0xff, 0xff] + b) else Zeros(12) + b)
  {
    hide Dotted, Hex;
    var none: seq<word> := [];
    assert Bytes(none) == [] && Groups(none) == "";
    var dotted := Dotted(b);
    if mapped {
      var head: seq<word> := [0xffff];
      assert Groups(head) == "ffff" by {
        HexOfMappedWord();
      }
      var text := Groups(head) + ":" + dotted;
      assert Bytes(head) == [0xff, 0xff];
      ScanGroups(head, dotted, text, [], 0);
      assert [] + Bytes(head) == Bytes(head);
      ScanDotted(b, Bytes(head), 0);
      assert Bytes(none) + (Bytes(head) + b) == Bytes(head) + b;
      ParseShortened(none, text, Bytes(head) + b);
      assert Groups(none) + "::" + text == Embedded(mapped, b);
      assert Bytes(none) + Zeros(10) + (Bytes(head) + b) == Zeros(10) + (Bytes(head) + b);
    } else {
      ScanDotted(b, [], 0);
      assert [] + b == b && Bytes(none) + b == b;
      ParseShortened(none, dotted, b);
      assert Groups(none) + "::" + dotted == Embedded(mapped, b);
      assert Bytes(none) + Zeros(12) + b == Zeros(12) + b;
    }
  }

  lemma {:induction false} ParseWithoutRun(ws: seq<word>)
    requires |ws| == 8
    ensures Pton6(Groups(ws)) == Some(Bytes(ws))
  {
    hide Bytes, Groups;
    GroupsStart(ws);
    ScanLastGroups(ws, Groups(ws), [], -1);
    assert [] + Bytes(ws) == Bytes(ws);
  }

  lemma {:induction false} ParseWithRun(pre: seq<word>, suf: seq<word>)
    requires |pre| + |suf| < 8
    ensures Pton6(Shortened(pre, suf)) == Some(Bytes(pre) + Zeros(16 - 2 * |pre| - 2 * |suf|) + Bytes(suf))
  {
    hide Pton6, Bytes, Groups, Scan6;
    ScanLastGroups(suf, Groups(suf), Bytes(pre), 2 * |pre|);
    ParseShortened(pre, Groups(suf), Bytes(suf));
  }

  lemma {:induction false} TextForms(a: seq<byte>, best: Run)
    requires |a| == 16
    requires best.base == -1 || (0 <= best.base && best.base + best.len <= 8)
    ensures best.base == -1 ==> TextWith(a, best) == Groups(Words(a))
    ensures best.base != -1 && EmbedsIPv4(Words(a), best) ==> TextWith(a, best) == Embedded(best.len == 5, a[12..])
    ensures best.base != -1 && !EmbedsIPv4(Words(a), best) ==>
              TextWith(a, best) == Shortened(Words(a)[..best.base], Words(a)[best.base + best.len..])
  {
  }

  /** For every address, parsing the printed text gives the address back. */
  lemma {:induction false} ParsePrinted(a: seq<byte>)
    requires |a| == 16
    ensures Pton6(Text6(a)) == Some(a)
  {
    hide Pton6, Bytes, Words, Embedded, Shortened, Groups;
    var ws := Words(a);
    var best := BestRun(ws);
    assert best.base == -1 || IsZeroRun(ws, best.base, best.len);
    TextForms(a, best);
    if best.base == -1 {
      BytesOfWords(a);
      ParseWithoutRun(ws);
    } else if EmbedsIPv4(ws, best) {
      ParseEmbedded(best.len == 5, a[12..]);
      ReassembleEmbedded(a, best.len == 5);
    } else {
      ParseWithRun(ws[..best.base], ws[best.base + best.len..]);
      Reassemble(a, best.base, best.len);
    }
  }

  // ----- "::" in a text that is already full -----

  lemma {:induction false} ShiftedFull(head: seq<byte>, tail: seq<byte>)
    requires |head| + |tail| == 16
    ensures Shifted(head + tail, |head|) == head + Zeros(|tail|)
  {
    assert (head + tail)[..|head|] == head;
  }

  /** Eight groups with "::" among them: the groups behind it are read and then cleared. */
  lemma {:induction false} ParseFull(pre: seq<word>, suf: seq<word>)
    requires |pre| + |suf| == 8
    ensures Pton6(Shortened(pre, suf)) == Some(Bytes(pre) + Zeros(2 * |suf|))
  {
    hide Pton6, Bytes, Groups, Scan6, Shifted;
    ScanLastGroups(suf, Groups(suf), Bytes(pre), 2 * |pre|);
    ParseGap(pre, Groups(suf), Bytes(suf));
    ShiftedFull(Bytes(pre), Bytes(suf));
  }

  /** Six groups and a dotted tail with "::" among the groups: the tail is cleared too. */
  lemma {:induction false} ParseFullDotted(pre: seq<word>, suf: seq<word>, b: seq<byte>)
    requires |pre| + |suf| == 6 && |b| == 4
    ensures var text := if suf == [] then Dotted(b) else Groups(suf) + ":" + Dotted(b);
            Pton6(Groups(pre) + "::" + text) == Some(Bytes(pre) + Zeros(2 * |suf| + 4))
  {
    hide Pton6, Groups, Scan6, Shifted, Dotted;
    var text := if suf == [] then Dotted(b) else Groups(suf) + ":" + Dotted(b);
    if suf == [] {
      assert Bytes(pre) + b == Bytes(pre) + (Bytes(suf) + b);
    } else {
      ScanGroups(suf, Dotted(b), text, Bytes(pre), 2 * |pre|);
      assert Bytes(pre) + Bytes(suf) + b == Bytes(pre) + (Bytes(suf) + b);
    }
    ScanDotted(b, Bytes(pre) + Bytes(suf), 2 * |pre|);
    ScanDotted(b, Bytes(pre), 2 * |pre|);
    ParseGap(pre, text, Bytes(suf) + b);
    ShiftedFull(Bytes(pre), Bytes(suf) + b);
  }

  /**
   * What inet_pton6 makes of groups with one "::", however many there are: below eight it stands
   * for the missing zeros, with eight it clears everything behind it, above eight it is an error.
   */
  lemma {:induction false} ParseAnyShortened(pre: seq<word>, suf: seq<word>)
    ensures Pton6(Shortened(pre, suf)) ==
            if |pre| + |suf| > 8 then None
            else if |pre| + |suf| == 8 then Some(Bytes(pre) + Zeros(2 * |suf|))
            else Some(Bytes(pre) + Zeros(16 - 2 * |pre| - 2 * |suf|) + Bytes(suf))
  {
    hide Bytes, Groups, Scan6;
    if |pre| + |suf| < 8 {
      ParseWithRun(pre, suf);
    } else if |pre| + |suf| == 8 {
      ParseFull(pre, suf);
    } else if |pre| > 8 {
      GroupsStart(pre);
      var rest := ":" + Groups(suf);
      assert Shortened(pre, suf) == Groups(pre) + ":" + rest;
      TooManyGroups(pre, rest, Shortened(pre, suf), [], -1);
    } else {
      ScanGap(pre, Groups(suf));
      TooManyLast(suf, Groups(suf), Bytes(pre), 2 * |pre|);
    }
  }

  lemma {:induction false} TooManyGroups(ws: seq<word>, rest: string, tok: string, out: seq<byte>, colon: int)
    requires |out| <= 16 < |out| + 2 * |ws| && -1 <= colon <= |out| && |out| % 2 == 0
    ensures Scan6(Groups(ws) + ":" + rest, tok, out, colon, false, 0) == None
  {
    hide Bytes, Hex;
    var n := |ws| - 1;
    var tail := Hex(ws[n]) + (":" + rest);
    if n == 0 {
      assert Groups(ws) + ":" + rest == tail;
      ScanHex(ws[n], ":" + rest, tok, out, colon);
    } else {
      assert Groups(ws) + ":" + rest == Groups(ws[..n]) + ":" + tail;
      if |out| + 2 * n > 16 {
        TooManyGroups(ws[..n], tail, tok, out, colon);
      } else {
        ScanGroups(ws[..n], tail, tok, out, colon);
        ScanHex(ws[n], ":" + rest, tail, out + Bytes(ws[..n]), colon);
      }
    }
  }

  lemma {:induction false} TooManyLast(ws: seq<word>, tok: string, out: seq<byte>, colon: int)
    requires |out| <= 16 < |out| + 2 * |ws| && -1 <= colon <= |out| && |out| % 2 == 0
    ensures Scan6(Groups(ws), tok, out, colon, false, 0) == None
  {
    hide Bytes, Hex;
    var n := |ws| - 1;
    var last := Hex(ws[n]);
    assert last + [] == last;
    if n == 0 {
      ScanHex(ws[n], [], tok, out, colon);
    } else if |out| + 2 * n > 16 {
      TooManyGroups(ws[..n], last, tok, out, colon);
    } else {
      ScanGroups(ws[..n], last, tok, out, colon);
      ScanHex(ws[n], [], last, out + Bytes(ws[..n]), colon);
    }
  }

  /**
   * In a text of eight groups "::" is silently ignored, as the source's comment says, if and only
   * if every group behind it is zero.
   */
  lemma {:induction false} FullIgnoredIffZero(pre: seq<word>, suf: seq<word>)
    requires |pre| + |suf| == 8
    ensures Pton6(Shortened(pre, suf)) == Some(Bytes(pre + suf)) <==> forall k :: 0 <= k < |suf| ==> suf[k] == 0
  {
    hide Pton6, Shortened, Words;
    ParseFull(pre, suf);
    BytesConcat(pre, suf);
    var zeros, bytes := Bytes(pre) + Zeros(2 * |suf|), Bytes(pre) + Bytes(suf);
    if zeros == bytes {
      assert zeros[2 * |pre|..] == Zeros(2 * |suf|) && bytes[2 * |pre|..] == Bytes(suf);
      ZeroBytes(suf);
    } else if forall k :: 0 <= k < |suf| ==> suf[k] == 0 {
      BytesOfZeros(suf);
    }
  }

  lemma {:induction false} ZeroBytes(ws: seq<word>)
    requires Bytes(ws) == Zeros(2 * |ws|)
    ensures forall k :: 0 <= k < |ws| ==> ws[k] == 0
  {
    if ws != [] {
      assert Bytes(ws)[0] == 0 && Bytes(ws)[1] == 0;
      assert Bytes(ws[1..]) == Bytes(ws)[2..] == Zeros(2 * |ws| - 2);
      ZeroBytes(ws[1..]);
      assert forall k :: 0 < k < |ws| ==> ws[k] == ws[1..][k - 1];
    }
  }

  /** A text that shows it: the last four groups are lost. */
  lemma {:induction false} FullLosesTail()
    ensures Pton6("1:2:3:4::5:6:7:8") == Some([0, 1, 0, 2, 0, 3, 0, 4, 0, 0, 0, 0, 0, 0, 0, 0])
  {
    hide Pton6;
    var pre: seq<word>, suf: seq<word> := [1, 2, 3, 4], [5, 6, 7, 8];
    FourGroups(1, 2, 3, 4);
    FourGroups(5, 6, 7, 8);
    assert Shortened(pre, suf) == "1:2:3:4::5:6:7:8";
    ParseFull(pre, suf);
    assert Bytes(pre) + Zeros(8) == [0, 1, 0, 2, 0, 3, 0, 4, 0, 0, 0, 0, 0, 0, 0, 0];
  }

  lemma {:induction false} FourGroups(a: word, b: word, c: word, d: word)
    requires a < 16 && b < 16 && c < 16 && d < 16
    ensures Groups([a, b, c, d]) == [HexChar(a), ':', HexChar(b), ':', HexChar(c), ':', HexChar(d)]
    ensures Bytes([a, b, c, d]) == [0, a, 0, b, 0, c, 0, d]
  {
    FourBytes(a, b, c, d);
    hide Bytes;
    GroupsSnoc([a, b, c, d], 0, 3);
    GroupsSnoc([a, b, c, d], 0, 2);
    GroupsSnoc([a, b, c, d], 0, 1);
    GroupsSnoc([a, b, c, d], 0, 0);
    assert [a, b, c, d][0..4] == [a, b, c, d];
  }

  lemma {:induction false} FourBytes(a: word, b: word, c: word, d: word)
    requires a < 16 && b < 16 && c < 16 && d < 16
    ensures Bytes([a, b, c, d]) == [0, a, 0, b, 0, c, 0, d]
  {
    BytesOne([d]);
    hide Bytes;
    BytesCons(c, [d]);
    BytesCons(b, [c, d]);
    BytesCons(a, [b, c, d]);
    assert [c] + [d] == [c, d] && [b] + [c, d] == [b, c, d] && [a] + [b, c, d] == [a, b, c, d];
  }

  // ----- room -----

  lemma {:induction false} HexLength(w: word)
    ensures 1 <= |Hex(w)| <= 4
  {
    assert w >= 0x10 ==> Hex(w) == Hex(w / 0x10) + [HexChar(w % 0x10)];
    assert w >= 0x100 ==> Hex(w / 0x10) == Hex(w / 0x100) + [HexChar(w / 0x10 % 0x10)];
    assert w >= 0x1000 ==> Hex(w / 0x100) == Hex(w / 0x1000) + [HexChar(w / 0x100 % 0x10)];
  }

  lemma {:induction false} GroupsLength(ws: seq<word>)
    ensures |Groups(ws)| <= if ws == [] then 0 else 5 * |ws| - 1
  {
    hide Hex;
    if ws != [] {
      HexLength(ws[|ws| - 1]);
      GroupsLength(ws[..|ws| - 1]);
    }
  }

  /**
   * No address needs more than 40 bytes with its terminator, so the 46-byte scratch buffer of
   * inet_ntop6 never overflows and a caller's buffer of 46 bytes is always enough.
   */
  lemma {:induction false} TextFits(a: seq<byte>)
    requires |a| == 16
    ensures |Text6(a)| + 1 <= 40
  {
    hide Groups, Hex, Dotted;
    var ws := Words(a);
    var best := BestRun(ws);
    assert best.base == -1 || IsZeroRun(ws, best.base, best.len);
    GroupsLength(ws);
    DottedLength(a[12..]);
    if best.base != -1 {
      GroupsLength(ws[..best.base]);
      GroupsLength(ws[best.base + best.len..]);
    }
  }

  /** Both conversions one after the other: with room for the text, the same sixteen bytes come back. */
  method PrintThenParse(src: seq<byte>, size: nat, dst: array<byte>) returns (ok: bool)
    requires |src| == 16 && dst.Length == 16
    modifies dst
    ensures size >= 40 ==> ok
    ensures dst[..] == if ok then src else old(dst[..])
  {
    hide Pton6, Text6;
    TextFits(src);
    ParsePrinted(src);
    var text := InetNtop6(src, size);
    if text == None {
      return false;
    }
    ok := InetPton6(text.value, dst);
  }
}
