/** The hexadecimal and ASCII string helpers of src/common/common.c: strhex,
    strhex_multiline, strbin and strascii.

    C strings are modelled as `string` values holding the characters before the
    terminating NUL; the NUL itself and the calloc'd buffers' extra byte are not
    part of the returned value. */
module Hex {
  import opened Types

  /** The characters strbin skips between two byte pairs. */
  predicate IsSeparator(c: char)
  {
    c == ' ' || c == '\n' || c == ':'
  }

  predicate AllSeparators(s: string)
  {
    forall k :: 0 <= k < |s| ==> IsSeparator(s[k])
  }

  /** A C string: no NUL before its end. */
  predicate NoNul(s: string)
  {
    forall k :: 0 <= k < |s| ==> s[k] != '\0'
  }

  /** strbin's `hextable`: the value of a hexadecimal digit of either case, -1 for any other character. */
  function DigitValue(c: char): (v: int)
    ensures -1 <= v < 16
    ensures v >= 0 <==> ('0' <= c <= '9' || 'A' <= c <= 'F' || 'a' <= c <= 'f')
  {
    if '0' <= c <= '9' then c as int - '0' as int
    else if 'A' <= c <= 'F' then c as int - 'A' as int + 10
    else if 'a' <= c <= 'f' then c as int - 'a' as int + 10
    else -1
  }

  /** The upper-case digit `%X` prints for a nibble; strbin reads it back as the same nibble. */
  function HexDigit(n: int): (c: char)
    requires 0 <= n < 16
    ensures DigitValue(c) == n
    ensures !IsSeparator(c) && c != '\0'
    ensures '0' <= c <= '9' || 'A' <= c <= 'F'
  {
    if n < 10 then ('0' as int + n) as char else ('A' as int + n - 10) as char
  }

  /** `%02X` of one byte: two upper-case digits, high nibble first. */
  function HexPair(b: byte): (s: string)
    ensures |s| == 2
    ensures DigitValue(s[0]) * 16 + DigitValue(s[1]) == b as int
    ensures NoNul(s)
  {
    [HexDigit(b as int / 16), HexDigit(b as int % 16)]
  }

  // ---------------------------------------------------------------------------
  // strhex

  /** Every byte's pair, each one followed by the delimiter. */
  function HexTerms(data: seq<byte>, delim: string): string
  {
    if data == [] then [] else HexTerms(data[..|data| - 1], delim) + HexPair(data[|data| - 1]) + delim
  }

  /** The text strhex produces: the pairs of all bytes with the delimiter between consecutive ones. */
  function Hex(data: seq<byte>, delim: string): string
    requires |data| > 0
  {
    HexTerms(data[..|data| - 1], delim) + HexPair(data[|data| - 1])
  }

  lemma {:induction false} MulSucc(a: nat, w: nat)
    ensures (a + 1) * w == a * w + w
  {
  }

  lemma {:induction false} MulMonotone(a: nat, b: nat, w: nat)
    requires a <= b
    ensures a * w <= b * w
  {
  }

  lemma {:induction false} HexTermsLength(data: seq<byte>, delim: string)
    ensures |HexTerms(data, delim)| == |data| * (2 + |delim|)
  {
    if data != [] {
      HexTermsLength(data[..|data| - 1], delim);
      MulSucc(|data| - 1, 2 + |delim|);
    }
  }

  /** HexTerms read from the front: the first byte's pair, the delimiter, then the rest. */
  lemma {:induction false} HexTermsCons(data: seq<byte>, delim: string)
    requires |data| > 0
    ensures HexTerms(data, delim) == HexPair(data[0]) + delim + HexTerms(data[1..], delim)
  {
    if |data| > 1 {
      var init := data[..|data| - 1];
      HexTermsCons(init, delim);
      assert init[1..] == data[1..][..|data[1..]| - 1];
      assert data[1..][|data[1..]| - 1] == data[|data| - 1];
    } else {
      assert data[..0] == [] && data[1..] == [];
    }
  }

  /** Hex read from the front. */
  lemma {:induction false} HexCons(data: seq<byte>, delim: string)
    requires |data| > 1
    ensures Hex(data, delim) == HexPair(data[0]) + delim + Hex(data[1..], delim)
  {
    var init := data[..|data| - 1];
    HexTermsCons(init, delim);
    assert init[1..] == data[1..][..|data[1..]| - 1];
  }

  /** The length strhex allocates (less the NUL byte) is exactly the length of its text. */
  lemma {:induction false} HexLength(data: seq<byte>, delim: string)
    requires |data| > 0
    ensures |Hex(data, delim)| == 2 * |data| + (|data| - 1) * |delim|
    ensures |Hex(data, delim)| + |delim| == |data| * (2 + |delim|)
  {
    var m := |data| - 1;
    HexTermsLength(data[..m], delim);
    Distribute(m, |delim|);
    MulSucc(m, 2 + |delim|);
  }

  lemma {:induction false} Distribute(a: nat, d: nat)
    ensures a * (2 + d) == 2 * a + a * d
  {
  }

  lemma {:induction false} HexTermsPrefix(data: seq<byte>, delim: string, a: nat, b: nat)
    requires a <= b <= |data|
    ensures HexTerms(data[..a], delim) <= HexTerms(data[..b], delim)
    decreases b - a
  {
    if a < b {
      HexTermsPrefix(data, delim, a, b - 1);
      assert data[..b][..b - 1] == data[..b - 1];
    }
  }

  /** Byte i is rendered as its two upper-case digits at position i * (2 + |delim|), and every
      byte but the last is followed by the delimiter. */
  lemma {:induction false} HexLayout(data: seq<byte>, delim: string, i: nat)
    requires i < |data|
    ensures i * (2 + |delim|) + 2 <= |Hex(data, delim)|
    ensures Hex(data, delim)[i * (2 + |delim|) .. i * (2 + |delim|) + 2] == HexPair(data[i])
    ensures i < |data| - 1 ==> (i + 1) * (2 + |delim|) <= |Hex(data, delim)|
    ensures i < |data| - 1 ==>
      Hex(data, delim)[i * (2 + |delim|) + 2 .. (i + 1) * (2 + |delim|)] == delim
  {
    HexTermsLength(data[..i], delim);
    MulSucc(i, 2 + |delim|);
    HexAt(data, delim, i);
  }

  /** HexLayout, with the position of byte i given as the length of the terms before it. */
  lemma {:induction false} HexAt(data: seq<byte>, delim: string, i: nat)
    requires i < |data|
    ensures var p := |HexTerms(data[..i], delim)|;
      && p + 2 <= |Hex(data, delim)| && Hex(data, delim)[p .. p + 2] == HexPair(data[i])
      && (i < |data| - 1 ==>
            p + 2 + |delim| <= |Hex(data, delim)| && Hex(data, delim)[p + 2 .. p + 2 + |delim|] == delim)
  {
    if i == |data| - 1 {
      assert data[..i] == data[..|data| - 1];
    } else {
      HexTermAt(data, delim, i);
    }
  }

  /** A byte before the last: its term lies inside the text, as a prefix of the terms up to it. */
  lemma {:induction false} HexTermAt(data: seq<byte>, delim: string, i: nat)
    requires i < |data| - 1
    ensures var t, h := HexTerms(data[..i], delim), Hex(data, delim);
      |t| + 2 + |delim| <= |h| && h[..|t| + 2 + |delim|] == t + HexPair(data[i]) + delim
  {
    var u := HexTerms(data[..i + 1], delim);
    assert data[..i + 1][..i] == data[..i];
    HexTermsPrefix(data, delim, i + 1, |data| - 1);
  }

  /** One iteration of strhex: where byte i's pair goes, and what the text is after it. */
  lemma {:induction false} HexStep(data: seq<byte>, delim: string, i: nat)
    requires i < |data|
    ensures |HexTerms(data[..i], delim)| == i * (2 + |delim|)
    ensures i < |data| - 1 ==>
      HexTerms(data[..i + 1], delim) == HexTerms(data[..i], delim) + HexPair(data[i]) + delim
    ensures i < |data| - 1 ==> (i + 1) * (2 + |delim|) + 2 <= |Hex(data, delim)|
    ensures i == |data| - 1 ==> Hex(data, delim) == HexTerms(data[..i], delim) + HexPair(data[i])
  {
    HexTermsLength(data[..i], delim);
    if i < |data| - 1 {
      assert data[..i + 1][..i] == data[..i];
      HexLength(data, delim);
      MulMonotone(i + 2, |data|, 2 + |delim|);
      MulSucc(i + 1, 2 + |delim|);
    } else {
      assert data[..i] == data[..|data| - 1];
    }
  }

  /** strhex (common.c:17-54): fills a buffer of 2N + (N-1)|delim| characters, byte by byte. */
  method StrHex(data: seq<byte>, delim: string) returns (s: string)
    requires |data| > 0 && NoNul(delim)
    ensures s == Hex(data, delim)
    ensures |s| == 2 * |data| + (|data| - 1) * |delim|
  {
    var n := |data|;
    var d := |delim|;
    HexLength(data, delim);
    var out := new char[2 * n + (n - 1) * d];
    HexStep(data, delim, 0);
    var i, j := 0, 0;
    while i < n
      invariant 0 <= i <= n && j == i * (2 + d)
      invariant i < n ==> j + 2 <= out.Length && out[..j] == HexTerms(data[..i], delim)
      invariant i == n ==> out[..] == Hex(data, delim)
    {
      HexStep(data, delim, i);
      var pair := HexPair(data[i]);
      if i == n - 1 {
        Put(out, j, pair);
        assert out[..] == out[..j + 2];
      } else {
        PutTerm(out, j, pair, delim);
      }
      MulSucc(i, 2 + d);
      i, j := i + 1, j + 2 + d;
    }
    s := out[..];
  }

  /** One byte's pair and then, when there is one, the delimiter. */
  method PutTerm(out: array<char>, j: nat, pair: string, delim: string)
    requires j + |pair| + |delim| <= out.Length
    modifies out
    ensures out[..j + |pair| + |delim|] == old(out[..j]) + pair + delim
  {
    Put(out, j, pair);
    if |delim| > 0 {
      Put(out, j + |pair|, delim);
    }
  }

  // ---------------------------------------------------------------------------
  // strhex_multiline

  /** What strhex_multiline writes after byte i (never after the last): a line break and the
      line prefix after every perLine-th byte, the delimiter otherwise. */
  function SeparatorAfter(i: nat, perLine: nat, prefix: string, delim: string): string
    requires perLine > 0
  {
    if (i + 1) % perLine == 0 then "\n" + prefix else delim
  }

  /** Every byte's pair, each one followed by its separator. */
  function LineTerms(data: seq<byte>, perLine: nat, prefix: string, delim: string): string
    requires perLine > 0
  {
    if data == [] then []
    else LineTerms(data[..|data| - 1], perLine, prefix, delim)
         + HexPair(data[|data| - 1]) + SeparatorAfter(|data| - 1, perLine, prefix, delim)
  }

  /** The text strhex_multiline produces. */
  function HexLines(data: seq<byte>, perLine: nat, prefix: string, delim: string): string
    requires |data| > 0 && perLine > 0
  {
    LineTerms(data[..|data| - 1], perLine, prefix, delim) + HexPair(data[|data| - 1])
  }

  lemma {:induction false} ModSmall(a: nat, m: nat)
    requires a < m
    ensures a % m == a
  {
  }

  lemma {:induction false} LineTermsWithoutBreaks(data: seq<byte>, perLine: nat, prefix: string, delim: string)
    requires perLine > |data|
    ensures LineTerms(data, perLine, prefix, delim) == HexTerms(data, delim)
  {
    if data != [] {
      LineTermsWithoutBreaks(data[..|data| - 1], perLine, prefix, delim);
      ModSmall(|data|, perLine);
    }
  }

  /** With at most one line's worth of bytes, strhex_multiline renders exactly as strhex. */
  lemma {:induction false} HexLinesSingleLine(data: seq<byte>, perLine: nat, prefix: string, delim: string)
    requires |data| > 0 && perLine >= |data|
    ensures HexLines(data, perLine, prefix, delim) == Hex(data, delim)
  {
    LineTermsWithoutBreaks(data[..|data| - 1], perLine, prefix, delim);
  }

  /** Length of the first n terms: 2 characters per byte, then 1 + |prefix| after a byte that
      ends a line and |delim| after any other. */
  function TermsLength(n: nat, perLine: nat, prefixLength: nat, delimLength: nat): nat
    requires perLine > 0
  {
    if n == 0 then 0
    else TermsLength(n - 1, perLine, prefixLength, delimLength) + 2
         + (if n % perLine == 0 then 1 + prefixLength else delimLength)
  }

  /** The length of strhex_multiline's text, which is the allocation the corrected model uses. */
  function MultilineLength(size: nat, perLine: nat, prefixLength: nat, delimLength: nat): nat
    requires size > 0 && perLine > 0
  {
    TermsLength(size - 1, perLine, prefixLength, delimLength) + 2
  }

  lemma {:induction false} LineTermsLength(data: seq<byte>, perLine: nat, prefix: string, delim: string)
    requires perLine > 0
    ensures |LineTerms(data, perLine, prefix, delim)| == TermsLength(|data|, perLine, |prefix|, |delim|)
  {
    if data != [] {
      LineTermsLength(data[..|data| - 1], perLine, prefix, delim);
    }
  }

  lemma {:induction false} TermsLengthMonotone(a: nat, b: nat, perLine: nat, p: nat, d: nat)
    requires a <= b && perLine > 0
    ensures TermsLength(a, perLine, p, d) + 2 * (b - a) <= TermsLength(b, perLine, p, d)
    decreases b - a
  {
    if a < b {
      TermsLengthMonotone(a, b - 1, perLine, p, d);
    }
  }

  /** MultilineLength is the length of the text. */
  lemma {:induction false} HexLinesLength(data: seq<byte>, perLine: nat, prefix: string, delim: string)
    requires |data| > 0 && perLine > 0
    ensures |HexLines(data, perLine, prefix, delim)| == MultilineLength(|data|, perLine, |prefix|, |delim|)
  {
    LineTermsLength(data[..|data| - 1], perLine, prefix, delim);
  }

  /** The buffer the source allocates, NUL byte included (common.c:70, 75-76). */
  function MultilineAllocation(size: nat, perLine: nat, prefixLength: nat, delimLength: nat): nat
    requires size > 0 && perLine > 0
  {
    1 + (1 + 2 * size + (size / perLine) * prefixLength + (size - 1) * delimLength)
  }

  /** With no delimiter, no prefix and a line break after every byte, ten bytes need 30
      characters (text and NUL) but the source allocates 22: the writes run past the buffer. */
  lemma {:induction false} MultilineAllocationOverflow(data: seq<byte>)
    requires |data| == 10
    ensures |HexLines(data, 1, "", "")| + 1 == 30
    ensures MultilineAllocation(|data|, 1, 0, 0) == 22
  {
    HexLinesLength(data, 1, "", "");
    assert TermsLength(9, 1, 0, 0) == 27;
  }

  /** snprintf / strncpy of `s` at position j: s replaces out[j .. j + |s|], nothing else changes. */
  method Put(out: array<char>, j: nat, s: string)
    requires j + |s| <= out.Length
    modifies out
    ensures out[..j + |s|] == old(out[..j]) + s
    ensures out[j + |s|..] == old(out[j + |s|..])
  {
    forall k | 0 <= k < |s| {
      out[j + k] := s[k];
    }
    assert out[..j + |s|] == old(out[..j]) + s;
  }

  /** One iteration of strhex_multiline: where byte i's pair goes, and what the text is after
      it and its separator. */
  lemma {:induction false} LinesStep(data: seq<byte>, perLine: nat, prefix: string, delim: string, i: nat)
    requires i < |data| && perLine > 0
    ensures |LineTerms(data[..i], perLine, prefix, delim)| == TermsLength(i, perLine, |prefix|, |delim|)
    ensures i < |data| - 1 ==>
      LineTerms(data[..i + 1], perLine, prefix, delim)
        == LineTerms(data[..i], perLine, prefix, delim) + HexPair(data[i]) + SeparatorAfter(i, perLine, prefix, delim)
    ensures i == |data| - 1 ==>
      HexLines(data, perLine, prefix, delim) == LineTerms(data[..i], perLine, prefix, delim) + HexPair(data[i])
  {
    LineTermsLength(data[..i], perLine, prefix, delim);
    if i < |data| - 1 {
      assert data[..i + 1][..i] == data[..i];
    } else {
      assert data[..i] == data[..|data| - 1];
    }
  }

  /** Room for the next pair: the terms before the last byte end two characters before the text. */
  lemma {:induction false} LinesBound(n: nat, i: nat, perLine: nat, p: nat, d: nat)
    requires i + 1 < n && perLine > 0
    ensures TermsLength(i + 1, perLine, p, d) + 2 <= MultilineLength(n, perLine, p, d)
  {
    TermsLengthMonotone(i + 1, n - 1, perLine, p, d);
    assert MultilineLength(n, perLine, p, d) == TermsLength(n - 1, perLine, p, d) + 2;
  }

  /** One iteration of strhex_multiline's loop for a byte other than the last: its pair, then
      a line break and the prefix when it ends a line, the delimiter otherwise. */
  method PutLineTerm(out: array<char>, j: nat, data: seq<byte>, i: nat, perLine: nat, prefix: string, delim: string)
    returns (next: nat)
    requires i + 1 < |data| && perLine > 0
    requires out.Length == MultilineLength(|data|, perLine, |prefix|, |delim|)
    requires j == TermsLength(i, perLine, |prefix|, |delim|) && j + 2 <= out.Length
    requires out[..j] == LineTerms(data[..i], perLine, prefix, delim)
    modifies out
    ensures next == TermsLength(i + 1, perLine, |prefix|, |delim|) && next + 2 <= out.Length
    ensures out[..next] == LineTerms(data[..i + 1], perLine, prefix, delim)
  {
    LinesStep(data, perLine, prefix, delim, i);
    LinesBound(|data|, i, perLine, |prefix|, |delim|);
    var pair := HexPair(data[i]);
    if (i + 1) % perLine == 0 {
      PutTerm(out, j, pair, "\n" + prefix);
      next := j + 3 + |prefix|;
    } else {
      PutTerm(out, j, pair, delim);
      next := j + 2 + |delim|;
    }
  }

  /** strhex_multiline (common.c:56-102), writing into a buffer of the corrected length. */
  method StrHexMultiline(data: seq<byte>, perLine: nat, prefix: string, delim: string) returns (s: string)
    requires |data| > 0 && perLine > 0 && NoNul(prefix) && NoNul(delim)
    ensures s == HexLines(data, perLine, prefix, delim)
    ensures |s| == MultilineLength(|data|, perLine, |prefix|, |delim|)
  {
    var n := |data|;
    HexLinesLength(data, perLine, prefix, delim);
    var out := new char[MultilineLength(n, perLine, |prefix|, |delim|)];
    var i, j := 0, 0;
    while i < n
      invariant 0 <= i <= n
      invariant i < n ==> j == TermsLength(i, perLine, |prefix|, |delim|) && j + 2 <= out.Length
      invariant i < n ==> out[..j] == LineTerms(data[..i], perLine, prefix, delim)
      invariant i == n ==> out[..] == HexLines(data, perLine, prefix, delim)
    {
      if i == n - 1 {
        LinesStep(data, perLine, prefix, delim, i);
        Put(out, j, HexPair(data[i]));
        assert out[..] == out[..j + 2];
      } else {
        j := PutLineTerm(out, j, data, i, perLine, prefix, delim);
      }
      i := i + 1;
    }
    s := out[..];
  }

  // ---------------------------------------------------------------------------
  // strbin

  /** Outcome of strbin: `code` is its return value (the byte count, or -1 .. -4), `written`
      the bytes it stored at the front of the caller's buffer before returning. */
  datatype Unhexed = Unhexed(code: int, written: seq<byte>)

  /** strbin's scan over the rest `s` of the input, `acc` holding the bytes stored so far. */
  function Unhex(s: string, capacity: nat, acc: seq<byte>): (r: Unhexed)
    requires |acc| <= capacity
    ensures |r.written| <= capacity
    ensures |acc| <= |r.written| && r.written[..|acc|] == acc
    ensures r.code >= 0 ==> r.code == |r.written|
    ensures r.code < 0 ==> -4 <= r.code
    ensures r.code == -1 ==> |r.written| == capacity
    decreases |s|
  {
    if s == [] then Unhexed(|acc|, acc)
    else if IsSeparator(s[0]) then Unhex(s[1..], capacity, acc)
    else if |acc| >= capacity then Unhexed(-1, acc)
    else if DigitValue(s[0]) < 0 then Unhexed(-2, acc)
    else if |s| < 2 then Unhexed(-3, acc)
    else if DigitValue(s[1]) < 0 then Unhexed(-4, acc)
    else
      var b := (DigitValue(s[0]) * 16 + DigitValue(s[1])) as byte;
      var r := Unhex(s[2..], capacity, acc + [b]);
      assert r.written[..|acc|] == (acc + [b])[..|acc|];
      r
  }

  /** strbin (common.c:111-148). */
  method StrBin(str: string, buffer: array<byte>) returns (r: int)
    requires NoNul(str)
    modifies buffer
    ensures r == Unhex(str, buffer.Length, []).code
    ensures buffer[..|Unhex(str, buffer.Length, []).written|] == Unhex(str, buffer.Length, []).written
    ensures buffer[|Unhex(str, buffer.Length, []).written|..]
         == old(buffer[|Unhex(str, buffer.Length, []).written|..])
  {
    ghost var goal := Unhex(str, buffer.Length, []);
    var i, j := 0, 0;
    while i < |str|
      invariant 0 <= i <= |str| && 0 <= j <= buffer.Length
      invariant Unhex(str[i..], buffer.Length, buffer[..j]) == goal
      invariant buffer[j..] == old(buffer[j..])
    {
      if IsSeparator(str[i]) {
        assert str[i..][1..] == str[i + 1..];
        i := i + 1;
        continue;
      }
      if j >= buffer.Length {
        return -1;
      }
      var high := DigitValue(str[i]);
      i := i + 1;
      if high < 0 {
        return -2;
      }
      if i >= |str| {
        return -3;
      }
      var low := DigitValue(str[i]);
      i := i + 1;
      if low < 0 {
        return -4;
      }
      assert str[i - 2..][2..] == str[i..];
      ghost var before, after := buffer[..j], buffer[j + 1..];
      assert after == old(buffer[j..])[1..];
      buffer[j] := (high * 16 + low) as byte;
      assert buffer[..j + 1] == before + [(high * 16 + low) as byte];
      assert buffer[j + 1..] == after;
      j := j + 1;
    }
    assert str[i..] == [];
    return j;
  }

  lemma {:induction false} UnhexSkipsSeparators(d: string, t: string, capacity: nat, acc: seq<byte>)
    requires AllSeparators(d) && |acc| <= capacity
    ensures Unhex(d + t, capacity, acc) == Unhex(t, capacity, acc)
  {
    if d != [] {
      assert (d + t)[0] == d[0] && (d + t)[1..] == d[1..] + t;
      UnhexSkipsSeparators(d[1..], t, capacity, acc);
    } else {
      assert d + t == t;
    }
  }

  lemma {:induction false} UnhexPair(b: byte, t: string, capacity: nat, acc: seq<byte>)
    requires |acc| < capacity
    ensures Unhex(HexPair(b) + t, capacity, acc) == Unhex(t, capacity, acc + [b])
  {
    assert (HexPair(b) + t)[2..] == t;
  }

  lemma {:induction false} UnhexHexTerms(data: seq<byte>, delim: string, t: string, capacity: nat, acc: seq<byte>)
    requires AllSeparators(delim) && |acc| + |data| <= capacity
    ensures Unhex(HexTerms(data, delim) + t, capacity, acc) == Unhex(t, capacity, acc + data)
    decreases |data|
  {
    if data == [] {
      assert acc + data == acc;
      assert HexTerms(data, delim) + t == t;
    } else {
      HexTermsCons(data, delim);
      var rest := HexTerms(data[1..], delim);
      var acc' := acc + [data[0]];
      var tail := delim + (rest + t);
      assert HexTerms(data, delim) + t == HexPair(data[0]) + tail;
      assert acc' + data[1..] == acc + data;
      calc {
        Unhex(HexPair(data[0]) + tail, capacity, acc);
        { UnhexPair(data[0], tail, capacity, acc); }
        Unhex(tail, capacity, acc');
        { UnhexSkipsSeparators(delim, rest + t, capacity, acc'); }
        Unhex(rest + t, capacity, acc');
        { UnhexHexTerms(data[1..], delim, t, capacity, acc'); }
        Unhex(t, capacity, acc + data);
      }
    }
  }

  /** Round trip: strbin recovers every byte strhex rendered, for any delimiter made of
      separators (NULL, "", " " and ":" among them) and a buffer of at least N bytes. */
  lemma {:induction false} StrBinOfStrHex(data: seq<byte>, delim: string, capacity: nat)
    requires |data| > 0 && AllSeparators(delim) && |data| <= capacity
    ensures Unhex(Hex(data, delim), capacity, []) == Unhexed(|data|, data)
  {
    var init := data[..|data| - 1];
    UnhexHexTerms(init, delim, HexPair(data[|data| - 1]), capacity, []);
    UnhexPair(data[|data| - 1], [], capacity, init);
    assert init + [data[|data| - 1]] == data;
    assert HexPair(data[|data| - 1]) + [] == HexPair(data[|data| - 1]);
  }

  /** Text holding more pairs than the buffer takes: strbin stops with -1 at the first pair
      with no room, having written the bytes that fit. */
  lemma {:induction false} StrBinTooSmall(data: seq<byte>, delim: string, capacity: nat)
    requires AllSeparators(delim) && capacity < |data|
    ensures Unhex(Hex(data, delim), capacity, []) == Unhexed(-1, data[..capacity])
  {
    var h, t := Hex(data, delim), HexTerms(data[..capacity], delim);
    HexAt(data, delim, capacity);
    if capacity < |data| - 1 {
      HexTermAt(data, delim, capacity);
      assert h[..|t|] == t;
    } else {
      assert data[..capacity] == data[..|data| - 1];
    }
    var rest := h[|t|..];
    assert h == t + rest;
    assert rest[..2] == HexPair(data[capacity]);
    UnhexHexTerms(data[..capacity], delim, rest, capacity, []);
    assert [] + data[..capacity] == data[..capacity];
  }

  /** Well-formed pairs followed by a lone hexadecimal digit, with room for one more byte: -3. */
  lemma {:induction false} StrBinOddDigit(data: seq<byte>, delim: string, c: char, capacity: nat)
    requires AllSeparators(delim) && |data| < capacity && DigitValue(c) >= 0
    ensures Unhex(HexTerms(data, delim) + [c], capacity, []) == Unhexed(-3, data)
  {
    UnhexHexTerms(data, delim, [c], capacity, []);
    assert [] + data == data;
  }

  /** Well-formed pairs, then a character that is neither a separator nor a digit where a pair
      should start: -2. */
  lemma {:induction false} StrBinBadHighDigit(data: seq<byte>, delim: string, c: char, t: string, capacity: nat)
    requires AllSeparators(delim) && |data| < capacity
    requires !IsSeparator(c) && DigitValue(c) < 0
    ensures Unhex(HexTerms(data, delim) + [c] + t, capacity, []) == Unhexed(-2, data)
  {
    UnhexHexTerms(data, delim, [c] + t, capacity, []);
    assert HexTerms(data, delim) + [c] + t == HexTerms(data, delim) + ([c] + t);
    assert [] + data == data;
  }

  /** Well-formed pairs, then a pair whose second character is not a digit (a separator inside
      the pair included): -4. */
  lemma {:induction false} StrBinBadLowDigit(data: seq<byte>, delim: string, b: byte, c: char, t: string, capacity: nat)
    requires AllSeparators(delim) && |data| < capacity
    requires IsSeparator(c) || DigitValue(c) < 0
    ensures Unhex(HexTerms(data, delim) + HexPair(b)[..1] + [c] + t, capacity, []) == Unhexed(-4, data)
  {
    var u := HexPair(b)[..1] + [c] + t;
    UnhexHexTerms(data, delim, u, capacity, []);
    assert HexTerms(data, delim) + HexPair(b)[..1] + [c] + t == HexTerms(data, delim) + u;
    assert u[0] == HexPair(b)[0] && u[1] == c && u[2..] == t;
    assert [] + data == data;
  }

  /** The text strhex produces is a C string that strbin can be handed. */
  lemma {:induction false} HexTermsNoNul(data: seq<byte>, delim: string)
    requires NoNul(delim)
    ensures NoNul(HexTerms(data, delim))
  {
    if data != [] {
      HexTermsNoNul(data[..|data| - 1], delim);
    }
  }

  // ---------------------------------------------------------------------------
  // strascii

  /** isprint in the C locale: 0x20 .. 0x7E. */
  predicate IsPrintable(b: byte)
  {
    0x20 <= b <= 0x7E
  }

  /** strascii (common.c:150-171): printable bytes as themselves, any other byte as '#'. */
  method StrAscii(data: seq<byte>) returns (s: string)
    ensures |s| == |data|
    ensures forall i :: 0 <= i < |data| ==>
      s[i] == (if IsPrintable(data[i]) then data[i] as char else '#')
    ensures forall i :: 0 <= i < |s| ==> 0x20 <= s[i] as int <= 0x7E
  {
    var out := new char[|data|];
    var i := 0;
    while i < |data|
      invariant 0 <= i <= |data|
      invariant forall k :: 0 <= k < i ==>
        out[k] == (if IsPrintable(data[k]) then data[k] as char else '#')
    {
      if IsPrintable(data[i]) {
        out[i] := data[i] as char;
      } else {
        out[i] := '#';
      }
      i := i + 1;
    }
    s := out[..];
  }
}
