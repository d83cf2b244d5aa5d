/**
 * Exactly which texts inet_pton6 accepts and what they mean, read off their colon-separated fields.
 * Source: unpv13e/libfree/inet_pton.c.
 */
module Inet6Exact {
  import opened Counting
  import opened Inet4
  import opened Inet6

  // ----- groups of hexadecimal digits -----

  /** The two tables of the source: either case is accepted. */
  predicate IsDigitOf(c: char, d: nat)
    requires d < 16
  {
    c == "0123456789abcdef"[d] || c == "0123456789ABCDEF"[d]
  }

  lemma {:induction false} HexTable(c: char, d: nat)
    requires d < 16
    ensures HexChar(d) == "0123456789abcdef"[d]
    ensures IsDigitOf(c, d) <==> IsHex(c) && HexVal(c) == d
  {
  }

  predicate AllHex(t: string)
  {
    forall i :: 0 <= i < |t| ==> IsHex(t[i])
  }

  function HexNumber(t: string): nat
    requires AllHex(t)
  {
    if t == [] then 0 else HexNumber(t[..|t| - 1]) * 16 + HexVal(t[|t| - 1])
  }

  /** One or more hexadecimal digits with a value of 16 bits; leading zeros are allowed. */
  predicate IsGroup(t: string)
  {
    t != [] && AllHex(t) && HexNumber(t) < 0x10000
  }

  lemma {:induction false} HexSnoc(t: string, c: char)
    requires AllHex(t) && IsHex(c)
    ensures AllHex(t + [c]) && HexNumber(t + [c]) == HexNumber(t) * 16 + HexVal(c)
  {
    assert (t + [c])[..|t|] == t;
  }

  lemma {:induction false} HexGrows(t: string, rest: string)
    requires AllHex(t + rest)
    ensures AllHex(t) && HexNumber(t) <= HexNumber(t + rest)
    decreases |rest|
  {
    assert forall i :: 0 <= i < |t| ==> t[i] == (t + rest)[i];
    if rest == [] {
      assert t + rest == t;
    } else {
      var n := |rest| - 1;
      assert (t + rest)[..|t + rest| - 1] == t + rest[..n];
      HexGrows(t, rest[..n]);
    }
  }

  /** What inet_ntop6 prints for a word: lower case, no leading zeros. */
  lemma {:induction false} HexCanonical(w: nat)
    ensures Hex(w) != [] && AllHex(Hex(w)) && HexNumber(Hex(w)) == w
    ensures forall i :: 0 <= i < |Hex(w)| ==> Hex(w)[i] in "0123456789abcdef"
    ensures (w > 0 ==> Hex(w)[0] != '0') && (w == 0 ==> Hex(w) == "0")
  {
    HexTable(HexChar(w % 16), w % 16);
    if w < 16 {
      HexSnoc([], HexChar(w));
      assert [] + [HexChar(w)] == [HexChar(w)];
    } else {
      HexCanonical(w / 16);
      HexSnoc(Hex(w / 16), HexChar(w % 16));
    }
  }

  function HexAll(ws: seq<word>): seq<string>
  {
    seq(|ws|, i requires 0 <= i < |ws| => Hex(ws[i]))
  }

  lemma {:induction false} NoColon(w: nat)
    ensures ':' !in Hex(w) && '.' !in Hex(w)
  {
    HexCanonical(w);
  }

  /** The printed groups are the words with colons between them. */
  lemma {:induction false} GroupsFields(ws: seq<word>, rest: string)
    requires ws != []
    ensures Fields(Groups(ws), ':') == HexAll(ws)
    ensures Fields(Groups(ws) + ":" + rest, ':') == HexAll(ws) + Fields(rest, ':')
  {
    hide Hex, Fields;
    var n := |ws| - 1;
    var last := Hex(ws[n]);
    NoColon(ws[n]);
    FieldsOne(last, ':');
    FieldsCons(last, rest, ':');
    if n == 0 {
      assert HexAll(ws) == [last];
      assert Groups(ws) + ":" + rest == last + [':'] + rest;
    } else {
      GroupsFields(ws[..n], last);
      GroupsFields(ws[..n], last + ":" + rest);
      assert HexAll(ws) == HexAll(ws[..n]) + [last];
      assert Groups(ws) + ":" + rest == Groups(ws[..n]) + ":" + (last + ":" + rest);
      Regroup(HexAll(ws[..n]), [last], Fields(rest, ':'));
    }
  }

  // ----- the reference -----

  /**
   * The fields in order. An empty one before the last stands for the gap and may occur once; a group
   * gives two bytes; the last one may also be empty, or a dotted quad of four bytes.
   */
  function ReadFields(fs: seq<string>, out: seq<byte>, colon: int): (r: Option<Parsed>)
    requires fs != [] && |out| <= 16 && -1 <= colon <= |out|
    ensures r.Some? ==> |r.value.out| <= 16 && -1 <= r.value.colon <= |r.value.out|
    decreases |fs|
  {
    var t := fs[0];
    if |fs| == 1 then
      if t == [] then Some(Parsed(out, colon))
      else if IsGroup(t) then
        if |out| + 2 <= 16 then Some(Parsed(out + Pair(HexNumber(t)), colon)) else None
      else if |out| + 4 <= 16 && Pton4(t).Some? then Some(Parsed(out + Pton4(t).value, colon))
      else None
    else if t == [] then
      if colon == -1 then ReadFields(fs[1..], out, |out|) else None
    else if IsGroup(t) && |out| + 2 <= 16 then ReadFields(fs[1..], out + Pair(HexNumber(t)), colon)
    else None
  }

  /** The bytes of a whole text: full without a gap, or filled up with zeros at the gap. */
  function Meaning(s: string): (r: Option<seq<byte>>)
  {
    match ReadFields(Fields(s, ':'), [], -1)
    case None => None
    case Some(p) =>
      if p.colon != -1 then
        if |p.out| < 16 then Some(p.out[..p.colon] + Zeros(16 - |p.out|) + p.out[p.colon..])
        else Some(p.out[..p.colon] + Zeros(16 - p.colon))
      else if |p.out| == 16 then Some(p.out)
      else None
  }

  /**
   * inet_pton6 accepts a text and returns its bytes exactly as the fields say; a text that starts
   * with a colon must start with two, and the first one does not count.
   */
  lemma {:induction false} Pton6Exact(src: string)
    ensures Pton6(src) ==
            if src == [] || src[0] != ':' then Meaning(src)
            else if |src| >= 2 && src[1] == ':' then Meaning(src[1..])
            else None
  {
    hide Scan6, ReadFields, Fields;
    ScanIsFields(src, [], [], -1);
    assert [] + src == src;
    if src != [] {
      ScanIsFields(src[1..], [], [], -1);
      assert [] + src[1..] == src[1..];
    }
  }

  /** The scanner in the middle of a field, of which it has read the digits `cur`. */
  lemma {:induction false} ScanIsFields(s: string, cur: string, out: seq<byte>, colon: int)
    requires |out| <= 16 && -1 <= colon <= |out|
    requires AllHex(cur) && HexNumber(cur) < 0x10000
    ensures Scan6(s, cur + s, out, colon, cur != [], HexNumber(cur)) == ReadFields(Fields(cur + s, ':'), out, colon)
    decreases |s|
  {
    hide HexNumber, Pton4;
    NoColonIn(cur);
    if s == [] {
      assert cur + s == cur;
      FieldsOne(cur, ':');
      EmptyIsZero();
    } else {
      assert cur + s == (cur + [s[0]]) + s[1..];
      if IsHex(s[0]) {
        HexSnoc(cur, s[0]);
        if HexNumber(cur + [s[0]]) < 0x10000 {
          ScanIsFields(s[1..], cur + [s[0]], out, colon);
        } else {
          TooBigField(cur + [s[0]], s[1..], out, colon);
        }
      } else if s[0] == ':' {
        FieldsCons(cur, s[1..], ':');
        EmptyIsZero();
        assert [] + s[1..] == s[1..];
        if cur == [] {
          assert cur + s == s;
          if colon == -1 {
            ScanIsFields(s[1..], [], out, |out|);
          }
        } else if |out| + 2 <= 16 {
          ScanIsFields(s[1..], [], out + Pair(HexNumber(cur)), colon);
        }
      } else {
        OtherField(cur, s, out, colon);
      }
    }
  }

  lemma {:induction false} EmptyIsZero()
    ensures AllHex([]) && HexNumber([]) == 0
  {
  }

  lemma {:induction false} NoColonIn(t: string)
    requires AllHex(t)
    ensures ':' !in t && '.' !in t
  {
  }

  /** A field whose digits are too many for 16 bits is refused, also as the start of a dotted quad. */
  lemma {:induction false} TooBigField(t: string, s: string, out: seq<byte>, colon: int)
    requires |out| <= 16 && -1 <= colon <= |out|
    requires AllHex(t) && HexNumber(t) >= 0x10000
    ensures ReadFields(Fields(t + s, ':'), out, colon) == None
  {
    NoColonIn(t);
    FieldsHead(t, s, ':');
    EmptyIsZero();
    var x := Fields(s, ':')[0];
    if AllHex(t + x) {
      HexGrows(t, x);
    }
    NotAQuad(t, x);
  }

  lemma {:induction false} NotAQuad(t: string, x: string)
    requires AllHex(t) && HexNumber(t) >= 0x10000
    ensures Pton4(t + x) == None
  {
    Pton4Exact(t + x);
    NoColonIn(t);
    FieldsHead(t, x, '.');
    var rest := Fields(x, '.')[0];
    assert Fields(t + x, '.')[0] == t + rest;
    if AllDigits(t + rest) && Value(0, t + rest) < 256 {
      assert forall i :: 0 <= i < |t| ==> t[i] == (t + rest)[i];
      ValueGrows(t, rest);
      DecimalAsHex(t);
      assert false;
    }
    assert !Octet(t + rest);
  }

  lemma {:induction false} ValueGrows(t: string, rest: string)
    requires AllDigits(t) && AllDigits(t + rest)
    ensures Value(0, t) <= Value(0, t + rest)
    decreases |rest|
  {
    if rest == [] {
      assert t + rest == t;
    } else {
      var n := |rest| - 1;
      var front := t + rest[..n];
      assert t + rest == front + [rest[n]];
      assert forall i :: 0 <= i < |front| ==> front[i] == (t + rest)[i];
      assert IsDigit((t + rest)[|front|]);
      ValueGrows(t, rest[..n]);
      ValueSnoc(0, front, rest[n]);
    }
  }

  /** Decimal digits with a value below 256 are few enough for the hexadecimal scanner. */
  lemma {:induction false} DecimalAsHex(t: string)
    requires AllDigits(t) && Value(0, t) < 256
    ensures AllHex(t) && HexNumber(t) == DigitsAsHex(Value(0, t)) < 0x1000
  {
    if t == [] {
      SmallAsHex(0);
    } else {
      hide HexNumber, Value, DigitsAsHex;
      var front, c := t[..|t| - 1], t[|t| - 1];
      assert t == front + [c] && IsDigit(c);
      ValueSnoc(0, front, c);
      var v, d := Value(0, front), DigitVal(c);
      assert (v * 10 + d) / 10 == v && (v * 10 + d) % 10 == d;
      DecimalAsHex(front);
      HexSnoc(front, c);
      SmallAsHex(v * 10 + d);
      SmallAsHex(v);
    }
  }

  lemma {:induction false} SmallAsHex(n: nat)
    requires n < 256
    ensures DigitsAsHex(n) < 0x1000
    ensures n >= 10 ==> DigitsAsHex(n) == DigitsAsHex(n / 10) * 16 + n % 10
    ensures n < 10 ==> DigitsAsHex(n) == n
  {
    if n >= 100 {
      assert DigitsAsHex(n / 100) == n / 100;
      assert DigitsAsHex(n / 10) == n / 100 * 16 + n / 10 % 10;
    } else if n >= 10 {
      assert DigitsAsHex(n / 10) == n / 10;
    }
  }

  /** At a character that is neither a digit nor a colon: only a dotted quad to the end of the text will do. */
  lemma {:induction false} OtherField(cur: string, s: string, out: seq<byte>, colon: int)
    requires |out| <= 16 && -1 <= colon <= |out| && AllHex(cur) && HexNumber(cur) < 0x10000
    requires s != [] && !IsHex(s[0]) && s[0] != ':'
    ensures Scan6(s, cur + s, out, colon, cur != [], HexNumber(cur)) == ReadFields(Fields(cur + s, ':'), out, colon)
  {
    var fs := Fields(cur + s, ':');
    NoColonIn(cur);
    FieldsHead(cur, s, ':');
    assert fs[0][|cur|] == s[0];
    assert !AllHex(fs[0]);
    FieldsWhole(cur + s, ':');
    QuadCharacters(cur + s);
    QuadCharacters(fs[0]);
    assert (cur + s)[|cur|] == s[0];
  }

  /** One field is the whole text; several mean that the separator occurs. */
  lemma {:induction false} FieldsWhole(s: string, sep: char)
    ensures |Fields(s, sep)| == 1 ==> Fields(s, sep)[0] == s
    ensures |Fields(s, sep)| > 1 ==> sep in s
  {
    if s != [] {
      FieldsWhole(s[1..], sep);
      assert s == [s[0]] + s[1..];
    }
  }

  /** A dotted quad has digits and dots only. */
  lemma {:induction false} QuadCharacters(t: string)
    ensures Pton4(t).Some? ==> forall i :: 0 <= i < |t| ==> IsDigit(t[i]) || t[i] == '.'
  {
    ScanCharacters(t, [], 0, false);
  }

  lemma {:induction false} ScanCharacters(t: string, done: seq<byte>, cur: byte, sawDigit: bool)
    requires |done| <= 3
    ensures Scan4(t, done, cur, sawDigit).Some? ==> forall i :: 0 <= i < |t| ==> IsDigit(t[i]) || t[i] == '.'
    decreases |t|
  {
    if t != [] && Scan4(t, done, cur, sawDigit).Some? {
      if IsDigit(t[0]) {
        ScanCharacters(t[1..], done, cur * 10 + DigitVal(t[0]), true);
      } else {
        ScanCharacters(t[1..], done + [cur], 0, false);
      }
      assert forall i :: 0 < i < |t| ==> t[i] == t[1..][i - 1];
    }
  }

  /** A colon after eight groups is tolerated. */
  lemma {:induction false} TrailingColon(ws: seq<word>)
    requires |ws| == 8
    ensures Pton6(Groups(ws) + ":") == Some(Bytes(ws))
  {
    hide Bytes, Groups;
    GroupsStart(ws);
    assert Groups(ws) + ":" + [] == Groups(ws) + ":";
    ScanGroups(ws, [], Groups(ws) + ":", [], -1);
    assert [] + Bytes(ws) == Bytes(ws);
  }
}
