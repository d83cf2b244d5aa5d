/**
 * What inet_ntop6 prints, read off the bytes of the address.
 * Source: unpv13e/libfree/inet_ntop.c.
 */
module Inet6Text {
  import opened Counting
  import opened Inet4
  import opened Inet6
  import opened Inet6Exact

  predicate ZeroBytes(a: seq<byte>, n: nat)
    requires n <= |a|
  {
    forall i :: 0 <= i < n ==> a[i] == 0
  }

  /** An IPv4-mapped address: ten zero bytes, two of ones. */
  predicate IsMapped(a: seq<byte>)
    requires |a| == 16
  {
    ZeroBytes(a, 10) && a[10] == 255 && a[11] == 255
  }

  /** An IPv4-compatible address: twelve zero bytes, then an IPv4 address whose first half is not zero. */
  predicate IsCompatible(a: seq<byte>)
    requires |a| == 16
  {
    ZeroBytes(a, 12) && !(a[12] == 0 && a[13] == 0)
  }

  lemma {:induction false} WordIsZero(a: seq<byte>, k: nat)
    requires |a| == 16 && k < 8
    ensures Words(a)[k] == Word(a[2 * k], a[2 * k + 1])
    ensures Words(a)[k] == 0 <==> a[2 * k] == 0 && a[2 * k + 1] == 0
    ensures Words(a)[k] == 0xffff <==> a[2 * k] == 255 && a[2 * k + 1] == 255
  {
    WordsAt(a, k);
  }

  /** A zero run of words from the start is a zero run of bytes. */
  lemma {:induction false} RunIsBytes(a: seq<byte>, n: nat)
    requires |a| == 16 && n <= 8
    ensures IsZeroRun(Words(a), 0, n) <==> ZeroBytes(a, 2 * n)
  {
    hide Words, Word;
    forall k: nat | k < 8 ensures Words(a)[k] == 0 <==> a[2 * k] == 0 && a[2 * k + 1] == 0 {
      WordIsZero(a, k);
    }
    if IsZeroRun(Words(a), 0, n) {
      forall i | 0 <= i < 2 * n ensures a[i] == 0 {
        assert Words(a)[i / 2] == 0;
      }
    }
  }

  /** No zero run contains a nonzero word. */
  lemma {:induction false} RunSkips(ws: seq<word>, b: int, l: nat, n: nat)
    requires IsZeroRun(ws, b, l) && n < |ws| && ws[n] != 0
    ensures b + l <= n || n < b
  {
  }

  /** The run that stands before a nonzero word, with at most as many words behind it, is the one chosen. */
  lemma {:induction false} FirstRunWins(ws: seq<word>, n: nat)
    requires |ws| == 8 && 4 <= n < 8 && IsZeroRun(ws, 0, n) && ws[n] != 0
    ensures BestRun(ws) == Run(0, n)
  {
    forall b: int, l: nat | IsZeroRun(ws, b, l) ensures l < n || (l == n && 0 <= b) {
      RunSkips(ws, b, l, n);
    }
    LeftmostLongestIsUnique(ws, BestRun(ws), Run(0, n));
  }

  /** ::ffff:1.2.3.4 */
  lemma {:induction false} TextOfMapped(a: seq<byte>)
    requires |a| == 16 && IsMapped(a)
    ensures Text6(a) == "::ffff:" + Dotted(a[12..])
  {
    WordIsZero(a, 5);
    RunIsBytes(a, 5);
    FirstRunWins(Words(a), 5);
  }

  /** ::1.2.3.4 */
  lemma {:induction false} TextOfCompatible(a: seq<byte>)
    requires |a| == 16 && IsCompatible(a)
    ensures Text6(a) == "::" + Dotted(a[12..])
  {
    WordIsZero(a, 6);
    RunIsBytes(a, 6);
    FirstRunWins(Words(a), 6);
  }

  /** The chosen run is zero, and the word behind a run from the start is not. */
  lemma {:induction false} ChosenRun(ws: seq<word>)
    requires |ws| == 8
    ensures var best := BestRun(ws);
            best.base != -1 ==>
              IsZeroRun(ws, best.base, best.len) && (best.base == 0 && best.len < 8 ==> ws[best.len] != 0)
  {
    var best := BestRun(ws);
    if best.base == 0 {
      assert IsZeroRun(ws, 0, best.len);
      assert best.len < 8 && ws[best.len] == 0 ==> IsZeroRun(ws, 0, best.len + 1);
    }
  }

  /** The dotted form is used for these two kinds of addresses and no others. */
  lemma {:induction false} EmbedsExactly(a: seq<byte>)
    requires |a| == 16
    ensures BestRun(Words(a)).base != -1 && EmbedsIPv4(Words(a), BestRun(Words(a))) <==> IsMapped(a) || IsCompatible(a)
  {
    hide Words, Word, LeftmostLongest, IsZeroRun;
    var ws := Words(a);
    RunIsBytes(a, 5);
    RunIsBytes(a, 6);
    WordIsZero(a, 5);
    WordIsZero(a, 6);
    ChosenRun(ws);
    if IsMapped(a) {
      FirstRunWins(ws, 5);
    } else if IsCompatible(a) {
      FirstRunWins(ws, 6);
    }
  }

  lemma {:induction false} NoDots(ws: seq<word>)
    ensures '.' !in Groups(ws)
  {
    if ws != [] {
      NoColon(ws[|ws| - 1]);
      hide Hex;
      NoDots(ws[..|ws| - 1]);
    }
  }

  /** The text has a dot if and only if the address is of one of these two kinds. */
  lemma {:induction false} DottedExactly(a: seq<byte>)
    requires |a| == 16
    ensures '.' in Text6(a) <==> IsMapped(a) || IsCompatible(a)
  {
    hide Groups, Words, Dec;
    var ws := Words(a);
    var best := BestRun(ws);
    EmbedsExactly(a);
    assert best.base == -1 || IsZeroRun(ws, best.base, best.len);
    TextForms(a, best);
    if IsMapped(a) || IsCompatible(a) {
      DotIn(a);
    } else {
      NoDots(ws);
      if best.base != -1 {
        NoDots(ws[..best.base]);
        NoDots(ws[best.base + best.len..]);
      }
    }
  }

  lemma {:induction false} DotIn(a: seq<byte>)
    requires |a| == 16 && (IsMapped(a) || IsCompatible(a))
    ensures '.' in Text6(a)
  {
    hide Text6, Dec;
    var d := Dotted(a[12..]);
    assert d[|Dec(a[12..][0])|] == '.';
    if IsMapped(a) {
      TextOfMapped(a);
      assert Text6(a)[7 + |Dec(a[12..][0])|] == '.';
    } else {
      TextOfCompatible(a);
      assert Text6(a)[2 + |Dec(a[12..][0])|] == '.';
    }
  }

  /** Any other address with two zero words in a row: "::" in place of the leftmost longest run. */
  lemma {:induction false} TextOfRun(a: seq<byte>, base: nat, len: nat)
    requires |a| == 16 && !IsMapped(a) && !IsCompatible(a)
    requires LeftmostLongest(Words(a), Run(base, len))
    ensures Text6(a) == Groups(Words(a)[..base]) + "::" + Groups(Words(a)[base + len..])
  {
    EmbedsExactly(a);
    LeftmostLongestIsUnique(Words(a), BestRun(Words(a)), Run(base, len));
    assert IsZeroRun(Words(a), base, len);
  }

  lemma {:induction false} TwoZeros(ws: seq<word>, b: int, l: nat)
    requires IsZeroRun(ws, b, l) && l >= 2
    ensures ws[b] == 0 && ws[b + 1] == 0
  {
  }

  /** Without two zero words in a row: all eight words, with colons between them. */
  lemma {:induction false} TextOfNone(a: seq<byte>)
    requires |a| == 16 && forall k :: 0 <= k < 7 ==> Words(a)[k] != 0 || Words(a)[k + 1] != 0
    ensures Text6(a) == Groups(Words(a))
    ensures Fields(Text6(a), ':') == HexAll(Words(a))
  {
    var ws := Words(a);
    forall b: int, l: nat | IsZeroRun(ws, b, l) ensures l < 2 {
      if l >= 2 {
        TwoZeros(ws, b, l);
        assert false;
      }
    }
    LeftmostLongestIsUnique(ws, BestRun(ws), Run(-1, 0));
    GroupsFields(ws, "");
  }
}
