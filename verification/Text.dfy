/** Characters and strings as Python's `str` sees them. */
module Text {

  /** `str.isspace`, which is also the regular-expression class \s. */
  predicate IsSpace(c: char) {
    || '\t' <= c <= '\r' || '\U{1C}' <= c <= '\U{20}'
    || c == '\U{85}' || c == '\U{A0}' || c == '\U{1680}'
    || '\U{2000}' <= c <= '\U{200A}' || c == '\U{2028}' || c == '\U{2029}'
    || c == '\U{202F}' || c == '\U{205F}' || c == '\U{3000}'
  }

  /** The 29 white-space characters. */
  lemma SpacesExactly(c: char)
    ensures IsSpace(c) <==> c as int in {9, 10, 11, 12, 13, 28, 29, 30, 31, 32, 133, 160, 5760,
      8192, 8193, 8194, 8195, 8196, 8197, 8198, 8199, 8200, 8201, 8202, 8232, 8233, 8239, 8287, 12288}
  {
  }

  function StripLeft(s: string): (r: string)
    ensures |r| <= |s| && r == s[|s| - |r|..]
    ensures r != [] ==> !IsSpace(r[0])
    ensures forall i :: 0 <= i < |s| - |r| ==> IsSpace(s[i])
  {
    if s != [] && IsSpace(s[0]) then StripLeft(s[1..]) else s
  }

  function StripRight(s: string): (r: string)
    ensures r <= s
    ensures r != [] ==> !IsSpace(r[|r| - 1])
    ensures forall i :: |r| <= i < |s| ==> IsSpace(s[i])
  {
    if s != [] && IsSpace(s[|s| - 1]) then StripRight(s[..|s| - 1]) else s
  }

  /** `str.strip()`. */
  function Strip(s: string): string { StripRight(StripLeft(s)) }

  lemma {:induction false} StripLeftPast(ws: string, s: string)
    requires forall c :: c in ws ==> IsSpace(c)
    ensures StripLeft(ws + s) == StripLeft(s)
  {
    if ws == [] {
      assert ws + s == s;
    } else {
      assert ws[0] in ws && (ws + s)[1..] == ws[1..] + s;
      StripLeftPast(ws[1..], s);
    }
  }

  /** A string with a non-space at each end is its own strip. */
  lemma StripTight(s: string)
    requires s != [] && !IsSpace(s[0]) && !IsSpace(s[|s| - 1])
    ensures Strip(s) == s
  {
  }

  /** Cutting a string before one of its non-space characters changes its strip. */
  lemma CutChangesStrip(s: string, k: nat)
    requires k < |s| && !IsSpace(s[k])
    ensures Strip(s[..k]) != Strip(s)
  {
    var l, lk := StripLeft(s), StripLeft(s[..k]);
    var a, b := |s| - |l|, k - |lk|;
    assert a <= k;
    assert l[k - a] == s[k];
    assert |Strip(s)| > k - a;
    if lk != [] {
      assert s[..k][b] == lk[0] == s[b];
      assert a <= b;
      assert |Strip(s[..k])| <= |lk| <= k - a;
    }
  }

  // ---------- Runs of characters ----------

  /** The length of the longest prefix whose characters all satisfy p. */
  function Run(p: char -> bool, s: string): (n: nat)
    ensures n <= |s|
    ensures forall i :: 0 <= i < n ==> p(s[i])
    ensures n < |s| ==> !p(s[n])
  {
    if s != [] && p(s[0]) then 1 + Run(p, s[1..]) else 0
  }

  /** A block of p-characters followed by none is read as exactly that block. */
  lemma {:induction false} RunOfBlock(p: char -> bool, block: string, rest: string)
    requires forall c :: c in block ==> p(c)
    requires rest != [] ==> !p(rest[0])
    ensures Run(p, block + rest) == |block|
  {
    if block == [] {
      assert block + rest == rest;
    } else {
      assert block[0] in block && (block + rest)[1..] == block[1..] + rest;
      RunOfBlock(p, block[1..], rest);
    }
  }

  // ---------- Splitting at a character ----------

  /** `s.split(c)` */
  function SplitAt(s: string, c: char): (parts: seq<string>)
    ensures |parts| >= 1
  {
    if s == [] then [[]]
    else
      var rest := SplitAt(s[1..], c);
      if s[0] == c then [[]] + rest else [[s[0]] + rest[0]] + rest[1..]
  }

  lemma {:induction false} SplitAtFirst(line: string, c: char, rest: string)
    requires c !in line
    ensures SplitAt(line, c) == [line]
    ensures SplitAt(line + [c] + rest, c) == [line] + SplitAt(rest, c)
  {
    if line == [] {
      assert line + [c] + rest == [c] + rest;
    } else {
      assert line[0] in line;
      SplitAtFirst(line[1..], c, rest);
      assert (line + [c] + rest)[1..] == line[1..] + [c] + rest;
      assert line == [line[0]] + line[1..];
    }
  }

  /** `c.join(lines)` */
  function Join(lines: seq<string>, c: char): string {
    if lines == [] then []
    else if |lines| == 1 then lines[0]
    else lines[0] + [c] + Join(lines[1..], c)
  }

  lemma {:induction false} SplitOfJoin(lines: seq<string>, c: char)
    requires lines != [] && forall l :: l in lines ==> c !in l
    ensures SplitAt(Join(lines, c), c) == lines
  {
    assert lines[0] in lines;
    if |lines| == 1 {
      SplitAtFirst(lines[0], c, []);
    } else {
      SplitAtFirst(lines[0], c, Join(lines[1..], c));
      SplitOfJoin(lines[1..], c);
    }
  }

  // ---------- Decimal numbers ----------

  predicate IsDigit(c: char) { '0' <= c <= '9' }

  function Digits(n: nat): (s: string)
    ensures s != [] && forall c :: c in s ==> IsDigit(c)
  {
    var d := [('0' as int + n % 10) as char];
    if n < 10 then d else Digits(n / 10) + d
  }

  /** `int(s)` for a string of digits. */
  function NatOf(s: string): nat
    requires forall c :: c in s ==> IsDigit(c)
  {
    if s == [] then 0
    else
      assert s[|s| - 1] in s && IsDigit(s[|s| - 1]);
      NatOf(s[..|s| - 1]) * 10 + (s[|s| - 1] as int - '0' as int)
  }

  lemma {:induction false} NatOfDigits(n: nat)
    ensures NatOf(Digits(n)) == n
  {
    var d := [('0' as int + n % 10) as char];
    if n < 10 {
      assert d[..0] == [];
    } else {
      NatOfDigits(n / 10);
      assert (Digits(n / 10) + d)[..|Digits(n / 10)|] == Digits(n / 10);
    }
  }

  function Power10(n: nat): nat { if n == 0 then 1 else 10 * Power10(n - 1) }

  function DigitValue(c: char): nat
    requires '0' <= c <= '9'
  {
    c as int - 48
  }

  /** A number is read in base ten: each digit counts by the number of those behind it. */
  lemma {:induction false} FirstDigitCounts(c: char, rest: string)
    requires IsDigit(c) && (forall d :: d in rest ==> IsDigit(d)) && forall d :: d in [c] + rest ==> IsDigit(d)
    ensures NatOf([c] + rest) == DigitValue(c) * Power10(|rest|) + NatOf(rest)
    decreases |rest|
  {
    if rest == [] {
      assert [c][..0] == [];
    } else {
      var front, last := rest[..|rest| - 1], rest[|rest| - 1];
      assert last in rest && rest == front + [last];
      assert forall d :: d in [c] + front ==> d in [c] + rest;
      FirstDigitCounts(c, front);
      assert ([c] + rest)[..|rest|] == [c] + front && ([c] + rest)[|rest|] == last;
      Shifted(DigitValue(c), Power10(|front|), NatOf(front));
    }
  }

  lemma Shifted(d: nat, p: nat, n: nat)
    ensures (d * p + n) * 10 == d * (10 * p) + n * 10
  {
  }
}
