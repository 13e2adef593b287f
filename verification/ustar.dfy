/** ustar archive headers (Lab1/pintos/src/lib/ustar.c) and the zero-padded octal numbers that
    they are printed with (format_integer in Lab1/pintos/src/lib/stdio.c). */
module Ustar {
  import opened Wrappers
  import A = Arithmetic

  type u8 = x: int | 0 <= x < 256

  const HEADER_SIZE: nat := 512
  const INT_MAX: nat := 0x7FFF_FFFF
  const ULONG_MAX: nat := 0xFFFF_FFFF

  const SPACE: u8 := 32
  const DOT: u8 := 46
  const SLASH: u8 := 47
  const ZERO: u8 := 48

  /** A C string's characters: no null byte among them. */
  predicate IsText(s: seq<u8>) { 0 !in s }

  // ----- Octal numbers -----------------------------------------------------------

  predicate IsOctal(c: u8) { ZERO <= c <= 55 }

  predicate AllOctal(s: seq<u8>) { forall k :: 0 <= k < |s| ==> IsOctal(s[k]) }

  function Repeat(c: u8, n: nat): (r: seq<u8>)
    ensures |r| == n && forall k :: 0 <= k < n ==> r[k] == c
  {
    seq(n, k => c)
  }

  /** The number that a string of octal digits denotes. */
  function Value(s: seq<u8>): (v: nat)
    requires AllOctal(s)
  {
    if s == [] then 0 else 8 * Value(s[..|s| - 1]) + (s[|s| - 1] - ZERO)
  }

  /** The digits of `v`, most significant first; none for zero. */
  function Digits(v: nat): (r: seq<u8>)
    ensures AllOctal(r)
  {
    if v == 0 then [] else Digits(v / 8) + [ZERO + v % 8]
  }

  /** What "%0<width>o" prints. */
  function Octal(v: nat, width: nat): (r: seq<u8>)
    ensures AllOctal(r)
  {
    var d := if v == 0 then [ZERO] else Digits(v);
    Repeat(ZERO, if |d| < width then width - |d| else 0) + d
  }

  function Reversed(s: seq<u8>): (r: seq<u8>)
    ensures |r| == |s|
  {
    if s == [] then [] else Reversed(s[1..]) + [s[0]]
  }

  lemma {:induction false} ReversedSnoc(s: seq<u8>, c: u8)
    ensures Reversed(s + [c]) == [c] + Reversed(s)
  {
    if s == [] {
    } else {
      assert (s + [c])[1..] == s[1..] + [c];
      ReversedSnoc(s[1..], c);
    }
  }

  /** format_integer for base 8, the '0' flag, no precision and no sign. */
  method FormatInteger(value: nat, width: nat) returns (out: seq<u8>)
    ensures out == Octal(value, width)
  {
    var buf := CollectDigits(value);
    if |buf| < 1 {
      buf := buf + [ZERO];
      assert Reversed([ZERO]) == [ZERO];
    }
    var padCnt := if |buf| < width then width - |buf| else 0;
    out := [];
    while |out| < padCnt
      invariant |out| <= padCnt && out == Repeat(ZERO, |out|)
    {
      out := out + [ZERO];
    }
    out := Emit(buf, out);
  }

  /** The digits, least significant first. */
  method CollectDigits(value: nat) returns (buf: seq<u8>)
    ensures Reversed(buf) == Digits(value) && |buf| == |Digits(value)|
    ensures |buf| < 1 <==> value == 0
  {
    buf := [];
    var v := value;
    while v > 0
      invariant Digits(v) + Reversed(buf) == Digits(value)
    {
      ReversedSnoc(buf, ZERO + v % 8);
      assert Digits(v / 8) + ([ZERO + v % 8] + Reversed(buf)) == Digits(v) + Reversed(buf);
      buf := buf + [ZERO + v % 8];
      v := v / 8;
    }
    assert [] + Reversed(buf) == Reversed(buf);
  }

  /** Appends the buffer to the output, last character first. */
  method Emit(chars: seq<u8>, start: seq<u8>) returns (out: seq<u8>)
    ensures out == start + Reversed(chars)
  {
    var buf := chars;
    out := start;
    while buf != []
      invariant out + Reversed(buf) == start + Reversed(chars)
      decreases |buf|
    {
      var c := buf[|buf| - 1];
      ReversedSnoc(buf[..|buf| - 1], c);
      assert buf == buf[..|buf| - 1] + [c];
      assert out + ([c] + Reversed(buf[..|buf| - 1])) == (out + [c]) + Reversed(buf[..|buf| - 1]);
      buf := buf[..|buf| - 1];
      out := out + [c];
    }
  }

  lemma {:induction false} ValueSnoc(s: seq<u8>, c: u8)
    requires AllOctal(s) && IsOctal(c)
    ensures AllOctal(s + [c]) && Value(s + [c]) == 8 * Value(s) + (c - ZERO)
  {
    assert (s + [c])[..|s|] == s;
  }

  lemma {:induction false} DigitsValue(v: nat)
    ensures Value(Digits(v)) == v
  {
    if v == 0 {
    } else {
      DigitsValue(v / 8);
      ValueSnoc(Digits(v / 8), ZERO + v % 8);
    }
  }

  lemma {:induction false} LeadingZeros(n: nat, s: seq<u8>)
    requires AllOctal(s)
    ensures AllOctal(Repeat(ZERO, n) + s) && Value(Repeat(ZERO, n) + s) == Value(s)
  {
    if s != [] {
      var t := s[..|s| - 1];
      LeadingZeros(n, t);
      assert Repeat(ZERO, n) + s == (Repeat(ZERO, n) + t) + [s[|s| - 1]];
      ValueSnoc(Repeat(ZERO, n) + t, s[|s| - 1]);
    } else if n > 0 {
      LeadingZeros(n - 1, []);
      assert Repeat(ZERO, n) + [] == (Repeat(ZERO, n - 1) + []) + [ZERO];
      ValueSnoc(Repeat(ZERO, n - 1) + [], ZERO);
    }
  }

  /** The printed digits denote the number. */
  lemma OctalValue(v: nat, width: nat)
    ensures Value(Octal(v, width)) == v
  {
    var d := if v == 0 then [ZERO] else Digits(v);
    LeadingZeros(if |d| < width then width - |d| else 0, d);
    if v == 0 { ValueSnoc([], ZERO); assert [] + [ZERO] == [ZERO]; } else { DigitsValue(v); }
  }

  function Pow8(n: nat): nat { if n == 0 then 1 else 8 * Pow8(n - 1) }

  lemma {:induction false} DigitsFit(v: nat, n: nat)
    requires v < Pow8(n)
    ensures |Digits(v)| <= n
  {
    if v == 0 {
    } else {
      DigitsFit(v / 8, n - 1);
    }
  }

  /** A number that fits takes exactly the width. */
  lemma OctalWidth(v: nat, width: nat)
    requires width >= 1 && v < Pow8(width)
    ensures |Octal(v, width)| == width
  {
    DigitsFit(v, width);
  }

  // ----- Octal fields ------------------------------------------------------------

  /** parse_octal_field from offset `ofs` on, with `value` read so far. */
  function ParseFrom(s: seq<u8>, ofs: nat, value: nat): Option<nat>
    requires ofs <= |s|
    decreases |s| - ofs
  {
    if ofs == |s| then None
    else if IsOctal(s[ofs]) then
      if value > ULONG_MAX / 8 then None else ParseFrom(s, ofs + 1, s[ofs] - ZERO + value * 8)
    else if (s[ofs] == SPACE || s[ofs] == 0) && ofs > 0 then Some(value)
    else None
  }

  function ParseOctal(s: seq<u8>): Option<nat> { ParseFrom(s, 0, 0) }

  method ParseOctalField(s: seq<u8>) returns (r: Option<nat>)
    ensures r == ParseOctal(s)
  {
    var value: nat := 0;
    var ofs := 0;
    while ofs < |s|
      invariant ofs <= |s| && ParseFrom(s, ofs, value) == ParseOctal(s)
    {
      var c := s[ofs];
      if ZERO <= c <= 55 {
        if value > ULONG_MAX / 8 { return None; }
        value := c - ZERO + value * 8;
      } else if c == SPACE || c == 0 {
        return if ofs > 0 then Some(value) else None;
      } else {
        return None;
      }
      ofs := ofs + 1;
    }
    return None;
  }

  /** `n` octal digits, then a space or a null byte, denoting `v`. */
  predicate Denotes(s: seq<u8>, n: nat, v: nat) {
    1 <= n < |s| && AllOctal(s[..n]) && (s[n] == SPACE || s[n] == 0) && Value(s[..n]) == v
  }

  ghost predicate EndsFrom(s: seq<u8>, ofs: nat, v: nat) {
    exists n :: ofs <= n && Denotes(s, n, v)
  }

  /** A further digit moves the end of the number one place. */
  lemma DigitExtends(s: seq<u8>, ofs: nat, v: nat)
    requires ofs < |s| && IsOctal(s[ofs]) && AllOctal(s[..ofs])
    ensures AllOctal(s[..ofs + 1]) && Value(s[..ofs + 1]) == s[ofs] - ZERO + 8 * Value(s[..ofs])
    ensures EndsFrom(s, ofs, v) <==> EndsFrom(s, ofs + 1, v)
  {
    assert s[..ofs + 1] == s[..ofs] + [s[ofs]];
    ValueSnoc(s[..ofs], s[ofs]);
    assert !Denotes(s, ofs, v);
    assert forall n :: ofs + 1 <= n && Denotes(s, n, v) ==> ofs <= n;
  }

  lemma {:induction false} ParseFromMeaning(s: seq<u8>, ofs: nat, v: nat)
    requires ofs <= |s| && AllOctal(s[..ofs]) && Value(s[..ofs]) <= ULONG_MAX
    ensures ParseFrom(s, ofs, Value(s[..ofs])) == Some(v) <==> v <= ULONG_MAX && EndsFrom(s, ofs, v)
    decreases |s| - ofs
  {
    var w := Value(s[..ofs]);
    if ofs < |s| && IsOctal(s[ofs]) {
      DigitExtends(s, ofs, v);
      if w > ULONG_MAX / 8 {
        if v <= ULONG_MAX { TooBig(s, ofs + 1, v); }
      } else {
        ParseFromMeaning(s, ofs + 1, v);
      }
    } else if ofs < |s| {
      assert Denotes(s, ofs, v) <==> ofs >= 1 && (s[ofs] == SPACE || s[ofs] == 0) && w == v;
    }
  }

  /** Digits past a prefix only make the number larger. */
  lemma {:induction false} ValueGrows(s: seq<u8>, m: nat, n: nat)
    requires m <= n <= |s| && AllOctal(s[..n])
    ensures AllOctal(s[..m]) && Value(s[..m]) <= Value(s[..n])
  {
    if m == n {
    } else {
      assert AllOctal(s[..n - 1]) by { assert forall k :: 0 <= k < n - 1 ==> s[..n - 1][k] == s[..n][k]; }
      ValueGrows(s, m, n - 1);
      assert s[..n] == s[..n - 1] + [s[n - 1]] && s[..n][n - 1] == s[n - 1];
      ValueSnoc(s[..n - 1], s[n - 1]);
    }
  }

  lemma TooBig(s: seq<u8>, m: nat, v: nat)
    requires m <= |s| && AllOctal(s[..m]) && Value(s[..m]) > ULONG_MAX && v <= ULONG_MAX
    ensures !EndsFrom(s, m, v)
  {
    forall n | m <= n && Denotes(s, n, v)
      ensures false
    {
      ValueGrows(s, m, n);
    }
  }

  /** A field is accepted exactly when digits that fit in 32 bits end in a space or a null byte. */
  lemma ParseOctalMeaning(s: seq<u8>, v: nat)
    ensures ParseOctal(s) == Some(v) <==> v <= ULONG_MAX && exists n :: Denotes(s, n, v)
  {
    assert s[..0] == [];
    ParseFromMeaning(s, 0, v);
    if n :| Denotes(s, n, v) { assert 0 <= n && Denotes(s, n, v); }
  }

  /** A printed field reads back. */
  lemma OctalRoundTrip(v: nat, width: nat)
    requires width >= 1 && v <= ULONG_MAX
    ensures ParseOctal(Octal(v, width) + [0]) == Some(v)
  {
    var s := Octal(v, width) + [0];
    OctalValue(v, width);
    assert s[..|s| - 1] == Octal(v, width);
    assert Denotes(s, |s| - 1, v);
    ParseOctalMeaning(s, v);
  }

  // ----- File names --------------------------------------------------------------

  predicate Antisocial(s: seq<u8>) {
    (|s| >= 1 && s[0] == SLASH)
    || (|s| >= 2 && s[0] == DOT && s[1] == SLASH)
    || (|s| >= 3 && s[0] == DOT && s[1] == DOT && s[2] == SLASH)
  }

  /** strchr (s, '/') + 1. */
  function AfterSlash(s: seq<u8>): (r: seq<u8>)
    requires SLASH in s
    ensures |r| < |s|
  {
    if s[0] == SLASH then s[1..] else AfterSlash(s[1..])
  }

  lemma {:induction false} AfterSlashIs(s: seq<u8>)
    requires SLASH in s
    ensures var k := |s| - |AfterSlash(s)|;
            AfterSlash(s) == s[k..] && s[k - 1] == SLASH && forall i :: 0 <= i < k - 1 ==> s[i] != SLASH
  {
    if s[0] == SLASH {
    } else {
      AfterSlashIs(s[1..]);
      var k := |s| - |AfterSlash(s)|;
      forall i | 0 <= i < k - 1 ensures s[i] != SLASH {
        if i > 0 { assert s[i] == s[1..][i - 1]; }
      }
    }
  }

  /** The name once no antisocial prefix is left. */
  function Core(s: seq<u8>): (r: seq<u8>)
    ensures !Antisocial(r) && |r| <= |s|
    decreases |s|
  {
    if Antisocial(s) then AntisocialHasSlash(s); Core(AfterSlash(s)) else s
  }

  lemma {:induction false} CoreIsSuffix(s: seq<u8>)
    ensures Core(s) == s[|s| - |Core(s)|..]
    decreases |s|
  {
    if !Antisocial(s) {
    } else {
      AntisocialHasSlash(s);
      AfterSlashIs(s);
      CoreIsSuffix(AfterSlash(s));
    }
  }

  lemma AntisocialHasSlash(s: seq<u8>)
    requires Antisocial(s)
    ensures SLASH in s
  {
  }

  function Strip(s: seq<u8>): seq<u8> {
    var r := Core(s);
    if r == [] || r == [DOT, DOT] then [DOT] else r
  }

  lemma StripKeepsText(s: seq<u8>)
    requires IsText(s)
    ensures IsText(Strip(s))
  {
    CoreIsSuffix(s);
  }

  /** Extracting such a name stays below the current directory as far as its first part goes. */
  predicate SafeStart(s: seq<u8>) {
    s != [] && !Antisocial(s) && s != [DOT, DOT]
  }

  /** Stripped names are safe, and safe names are exactly the ones that stripping leaves alone. */
  lemma StripFixes(s: seq<u8>)
    ensures SafeStart(Strip(s))
    ensures Strip(s) == s <==> SafeStart(s)
    ensures Strip(Strip(s)) == Strip(s)
  {
  }

  /** The name from byte `n` on begins at a path component and has no prefix "/", "./" or "../". */
  ghost predicate Cut(s: seq<u8>, n: nat) {
    && n <= |s| && (n == 0 || s[n - 1] == 47)
    && !(|s| >= n + 1 && s[n] == 47)
    && !(|s| >= n + 2 && s[n] == 46 && s[n + 1] == 47)
    && !(|s| >= n + 3 && s[n] == 46 && s[n + 1] == 46 && s[n + 2] == 47)
  }

  ghost predicate LeastCut(s: seq<u8>, n: nat) { Cut(s, n) && forall m: nat :: m < n ==> !Cut(s, m) }

  /** `r` is what is left of `s` when as little as possible is dropped; "." if that is nothing or "..". */
  ghost predicate StripsTo(s: seq<u8>, r: seq<u8>) {
    exists n: nat :: LeastCut(s, n) && r == if s[n..] == [] || s[n..] == [46, 46] then [46] else s[n..]
  }

  /** Stripping drops the antisocial prefixes and no more. */
  lemma StripsToIff(s: seq<u8>, r: seq<u8>)
    ensures StripsTo(s, r) <==> r == Strip(s)
  {
    CoreIsCut(s);
    CoreIsSuffix(s);
    var n := |s| - |Core(s)|;
    if m: nat :| LeastCut(s, m) && r == if s[m..] == [] || s[m..] == [46, 46] then [46] else s[m..] {
      OneLeast(s, m, n);
    }
  }

  lemma OneLeast(s: seq<u8>, m: nat, n: nat)
    requires LeastCut(s, m) && LeastCut(s, n)
    ensures m == n
  {
  }

  lemma CutAtStart(s: seq<u8>)
    ensures Cut(s, 0) <==> !Antisocial(s)
  {
  }

  lemma CoreIsCut(s: seq<u8>)
    ensures LeastCut(s, |s| - |Core(s)|)
  {
    CoreCuts(s);
    forall m: nat | m < |s| - |Core(s)| ensures !Cut(s, m) { CoreLeast(s, m); }
  }

  lemma {:induction false} CoreCuts(s: seq<u8>)
    ensures Cut(s, |s| - |Core(s)|)
    decreases |s|
  {
    CutAtStart(s);
    if !Antisocial(s) {
    } else {
      AntisocialHasSlash(s);
      CoreCuts(AfterSlash(s));
      CutBehind(s, |AfterSlash(s)| - |Core(s)|);
    }
  }

  lemma {:induction false} CoreLeast(s: seq<u8>, m: nat)
    requires m < |s| - |Core(s)|
    ensures !Cut(s, m)
    decreases |s|
  {
    CutAtStart(s);
    if m == 0 {
    } else {
      AntisocialHasSlash(s);
      AfterSlashIs(s);
      var k := |s| - |AfterSlash(s)|;
      if m >= k {
        CoreLeast(AfterSlash(s), m - k);
        CutBehind(s, m - k);
      }
    }
  }

  /** Behind the first slash the name is cut where the rest is. */
  lemma CutBehind(s: seq<u8>, n: nat)
    requires SLASH in s
    ensures Cut(s, |s| - |AfterSlash(s)| + n) <==> Cut(AfterSlash(s), n)
  {
    AfterSlashIs(s);
    SuffixCut(s, |s| - |AfterSlash(s)|, AfterSlash(s), n);
  }

  lemma SuffixCut(s: seq<u8>, k: nat, t: seq<u8>, n: nat)
    requires 1 <= k <= |s| && s[k - 1] == 47 && t == s[k..]
    ensures Cut(s, k + n) <==> Cut(t, n)
  {
    assert |t| == |s| - k;
    if n <= |t| {
      assert n > 0 ==> t[n - 1] == s[k + n - 1];
      assert n < |t| ==> t[n] == s[k + n];
      assert n + 1 < |t| ==> t[n + 1] == s[k + n + 1];
      assert n + 2 < |t| ==> t[n + 2] == s[k + n + 2];
    }
  }

  method StripAntisocialPrefixes(fileName: seq<u8>) returns (r: seq<u8>)
    ensures r == Strip(fileName)
  {
    r := fileName;
    while Antisocial(r)
      invariant Core(r) == Core(fileName)
      decreases |r|
    {
      AntisocialHasSlash(r);
      r := AfterSlash(r);
    }
    if r == [] || r == [DOT, DOT] { r := [DOT]; }
  }

  // ----- The header's layout -----------------------------------------------------

  datatype Field =
    | Name | Mode | Uid | Gid | Size | Mtime | Chksum | Typeflag | Linkname | Magic | Version
    | Uname | Gname | Devmajor | Devminor | Prefix | Padding

  function Start(f: Field): nat {
    match f
    case Name => 0
    case Mode => 100
    case Uid => 108
    case Gid => 116
    case Size => 124
    case Mtime => 136
    case Chksum => 148
    case Typeflag => 156
    case Linkname => 157
    case Magic => 257
    case Version => 263
    case Uname => 265
    case Gname => 297
    case Devmajor => 329
    case Devminor => 337
    case Prefix => 345
    case Padding => 500
  }

  function Length(f: Field): nat {
    match f
    case Name => 100
    case Mode => 8
    case Uid => 8
    case Gid => 8
    case Size => 12
    case Mtime => 12
    case Chksum => 8
    case Typeflag => 1
    case Linkname => 100
    case Magic => 6
    case Version => 2
    case Uname => 32
    case Gname => 32
    case Devmajor => 8
    case Devminor => 8
    case Prefix => 155
    case Padding => 12
  }

  /** The field that byte `k` of a header belongs to. */
  function FieldAt(k: nat): (f: Field)
    requires k < HEADER_SIZE
    ensures Start(f) <= k < Start(f) + Length(f)
  {
    if k < 100 then Name else if k < 108 then Mode else if k < 116 then Uid else if k < 124 then Gid
    else if k < 136 then Size else if k < 148 then Mtime else if k < 156 then Chksum
    else if k < 157 then Typeflag else if k < 257 then Linkname else if k < 263 then Magic
    else if k < 265 then Version else if k < 297 then Uname else if k < 329 then Gname
    else if k < 337 then Devmajor else if k < 345 then Devminor else if k < 500 then Prefix else Padding
  }

  function Text(fs: map<Field, seq<u8>>, f: Field): seq<u8> { if f in fs then fs[f] else [] }

  function CharAt(s: seq<u8>, k: nat): u8 { if k < |s| then s[k] else 0 }

  /** The 512 bytes with the given contents of fields, zero elsewhere. */
  function Layout(fs: map<Field, seq<u8>>): (h: seq<u8>)
    ensures |h| == HEADER_SIZE
  {
    seq(HEADER_SIZE, k requires 0 <= k < HEADER_SIZE => CharAt(Text(fs, FieldAt(k)), k - Start(FieldAt(k))))
  }

  function Get(h: seq<u8>, f: Field): (r: seq<u8>)
    requires |h| == HEADER_SIZE
    ensures |r| == Length(f)
  {
    h[Start(f)..Start(f) + Length(f)]
  }

  /** The bytes `s` written at `at`. */
  function Put(h: seq<u8>, at: nat, s: seq<u8>): (r: seq<u8>)
    requires at + |s| <= |h|
    ensures |r| == |h|
    ensures forall k :: 0 <= k < |h| ==> r[k] == if at <= k < at + |s| then s[k - at] else h[k]
  {
    h[..at] + s + h[at + |s|..]
  }

  lemma PutField(fs: map<Field, seq<u8>>, f: Field, s: seq<u8>)
    requires Text(fs, f) == [] && |s| <= Length(f)
    ensures Start(f) + |s| <= HEADER_SIZE && Put(Layout(fs), Start(f), s) == Layout(fs[f := s])
  {
    var h := Put(Layout(fs), Start(f), s);
    forall k: nat | k < HEADER_SIZE
      ensures h[k] == Layout(fs[f := s])[k]
    {
    }
  }

  /** A field filled to its length reads back whole. */
  lemma FullField(fs: map<Field, seq<u8>>, f: Field)
    requires |Text(fs, f)| == Length(f)
    ensures Get(Layout(fs), f) == Text(fs, f)
  {
    forall k: nat | k < Length(f)
      ensures Get(Layout(fs), f)[k] == Text(fs, f)[k]
    {
      InField(f, k);
    }
  }

  lemma InField(f: Field, k: nat)
    requires k < Length(f)
    ensures Start(f) + k < HEADER_SIZE && FieldAt(Start(f) + k) == f
  {
  }

  // ----- The checksum ------------------------------------------------------------

  function Summand(h: seq<u8>, i: nat): u8
    requires i < |h|
  {
    if 148 <= i < 156 then SPACE else h[i]
  }

  function SumFrom(h: seq<u8>, i: nat): (r: nat)
    requires i <= |h|
    ensures r <= 255 * (|h| - i)
    decreases |h| - i
  {
    if i == |h| then 0 else Summand(h, i) + SumFrom(h, i + 1)
  }

  function Checksum(h: seq<u8>): nat
    requires |h| == HEADER_SIZE
  {
    SumFrom(h, 0)
  }

  /** The sum of the bytes. */
  function Total(s: seq<u8>): nat { if s == [] then 0 else s[0] + Total(s[1..]) }

  lemma {:induction false} TotalConcat(s: seq<u8>, t: seq<u8>)
    ensures Total(s + t) == Total(s) + Total(t)
  {
    if s == [] {
      assert s + t == t;
    } else {
      TotalConcat(s[1..], t);
      assert (s + t)[1..] == s[1..] + t;
    }
  }

  lemma {:induction false} SumIsTotal(h: seq<u8>, b: seq<u8>, i: nat)
    requires |b| == |h| && i <= |h| && forall k :: 0 <= k < |h| ==> b[k] == Summand(h, k)
    ensures SumFrom(h, i) == Total(b[i..])
    decreases |h| - i
  {
    if i == |h| {
    } else {
      SumIsTotal(h, b, i + 1);
      assert b[i..][1..] == b[i + 1..];
    }
  }

  /** The checksum is the sum of the bytes with spaces for the checksum's own. */
  lemma ChecksumIsTotal(h: seq<u8>)
    requires |h| == HEADER_SIZE
    ensures Checksum(h) == Total(h[..148] + [32, 32, 32, 32, 32, 32, 32, 32] + h[156..])
  {
    SumIsTotal(h, h[..148] + [32, 32, 32, 32, 32, 32, 32, 32] + h[156..], 0);
  }

  method CalculateChksum(h: array<u8>) returns (chksum: nat)
    requires h.Length == HEADER_SIZE
    ensures chksum == Checksum(h[..])
  {
    chksum := 0;
    var i := 0;
    while i < HEADER_SIZE
      invariant i <= HEADER_SIZE && chksum + SumFrom(h[..], i) == Checksum(h[..])
    {
      var inChksumField := 148 <= i < 148 + 8;
      chksum := chksum + (if inChksumField then SPACE else h[i]);
      i := i + 1;
    }
  }

  /** The sum never sees its own field. */
  lemma {:induction false} SumIgnoresField(h: seq<u8>, g: seq<u8>, i: nat)
    requires |h| == |g| && i <= |h|
    requires forall k :: 0 <= k < |h| && !(148 <= k < 156) ==> h[k] == g[k]
    ensures SumFrom(h, i) == SumFrom(g, i)
    decreases |h| - i
  {
    if i == |h| {
    } else {
      SumIgnoresField(h, g, i + 1);
    }
  }

  /** One byte changed elsewhere moves the sum by the difference. */
  lemma {:induction false} SumSeesByte(h: seq<u8>, j: nat, b: u8, i: nat)
    requires i <= |h| && j < |h| && !(148 <= j < 156)
    ensures SumFrom(h[j := b], i) == SumFrom(h, i) + (if i <= j then b - h[j] else 0)
    decreases |h| - i
  {
    if i == |h| {
    } else {
      SumSeesByte(h, j, b, i + 1);
    }
  }

  // ----- Making a header ---------------------------------------------------------

  datatype FileType = Regular | Directory

  function Flag(t: FileType): u8 { if t.Regular? then 48 else 53 }

  const USTAR: seq<u8> := [117, 115, 116, 97, 114]
  const ROOT: seq<u8> := [114, 111, 111, 116]
  const NO_ID: seq<u8> := [48, 48, 48, 48, 48, 48, 48]
  const MTIME: nat := 1136102400

  /** The fields but for the checksum, and but for the magic, version and owner. */
  function FileFields(name: seq<u8>, t: FileType, size: A.i32): map<Field, seq<u8>> {
    map[Name := name + [0],
        Mode := Octal(if t.Regular? then 420 else 493, 7) + [0],
        Uid := NO_ID + [0],
        Gid := NO_ID + [0],
        Size := Octal(A.Wrap32(size), 11) + [0],
        Mtime := Octal(MTIME, 11) + [0],
        Typeflag := [Flag(t)]]
  }

  function AllFields(name: seq<u8>, t: FileType, size: A.i32): map<Field, seq<u8>> {
    ArchiveFields(FileFields(name, t, size))
  }

  function ChksumText(fs: map<Field, seq<u8>>): seq<u8> { Octal(Checksum(Layout(fs)), 7) + [0] }

  /** The header for a name already stripped. */
  function HeaderFor(name: seq<u8>, t: FileType, size: A.i32): (h: seq<u8>)
    ensures |h| == HEADER_SIZE
  {
    var fs := AllFields(name, t, size);
    Layout(fs[Chksum := ChksumText(fs)])
  }

  /** What strlcpy and snprintf leave in a buffer of `size` bytes. */
  function Clip(s: seq<u8>, size: nat): (r: seq<u8>)
    requires size >= 1
    ensures 1 <= |r| <= size
  {
    if |s| < size then s + [0] else s[..size - 1] + [0]
  }

  method CopyString(header: array<u8>, at: nat, s: seq<u8>, size: nat)
    requires size >= 1 && at + size <= header.Length
    modifies header
    ensures header[..] == Put(old(header[..]), at, Clip(s, size))
  {
    ghost var h := header[..];
    var i := 0;
    while i < |s| && i < size - 1
      invariant i <= |s| && i <= size - 1
      invariant forall k :: 0 <= k < header.Length ==> header[k] == if at <= k < at + i then s[k - at] else h[k]
    {
      header[at + i] := s[i];
      i := i + 1;
    }
    header[at + i] := 0;
    assert |Clip(s, size)| == i + 1 && Clip(s, size)[i] == 0 && forall k :: 0 <= k < i ==> Clip(s, size)[k] == s[k];
  }

  /** Writes a string and its null byte to an empty field. */
  method StoreString(header: array<u8>, f: Field, s: seq<u8>, ghost fs: map<Field, seq<u8>>)
    requires header[..] == Layout(fs) && Text(fs, f) == [] && |s| < Length(f)
    modifies header
    ensures header[..] == Layout(fs[f := s + [0]])
  {
    assert |header[..]| == HEADER_SIZE;
    PutField(fs, f, s + [0]);
    CopyString(header, Start(f), s, Length(f));
  }

  method Clear(header: array<u8>)
    requires header.Length == HEADER_SIZE
    modifies header
    ensures header[..] == Layout(map[])
  {
    var i := 0;
    while i < HEADER_SIZE
      invariant i <= HEADER_SIZE && forall k :: 0 <= k < i ==> header[k] == 0
    {
      header[i] := 0;
      i := i + 1;
    }
    assert forall k :: 0 <= k < HEADER_SIZE ==> Layout(map[])[k] == 0;
  }

  lemma SmallOctals()
    ensures |Octal(420, 7)| == 7 && |Octal(493, 7)| == 7 && |Octal(MTIME, 11)| == 11
    ensures forall v: nat :: v < A.B32 ==> |Octal(v, 11)| == 11
    ensures forall v: nat :: v <= 255 * 512 ==> |Octal(v, 7)| == 7
  {
    assert Pow8(7) == 2097152 by { assert Pow8(4) == 4096; }
    assert Pow8(11) == 8589934592 by { assert Pow8(9) == 134217728; }
    forall v: nat | v < A.B32
      ensures |Octal(v, 11)| == 11
    {
      OctalWidth(v, 11);
    }
    forall v: nat | v <= 255 * 512
      ensures |Octal(v, 7)| == 7
    {
      OctalWidth(v, 7);
    }
  }

  /** Fills the header for a name short enough; leaves it alone otherwise. */
  method MakeHeader(fileName: seq<u8>, t: FileType, size: A.i32, header: array<u8>) returns (ok: bool)
    requires IsText(fileName) && header.Length == HEADER_SIZE
    modifies header
    ensures ok <==> |Strip(fileName)| <= 99
    ensures header[..] == if ok then HeaderFor(Strip(fileName), t, size) else old(header[..])
  {
    var name := StripAntisocialPrefixes(fileName);
    if |name| > 99 { return false; }
    Fill(header, name, t, size);
    ok := true;
  }

  method Fill(header: array<u8>, name: seq<u8>, t: FileType, size: A.i32)
    requires header.Length == HEADER_SIZE && |name| <= 99
    modifies header
    ensures header[..] == HeaderFor(name, t, size)
  {
    Clear(header);
    FillFile(header, name, t, size);
    FillArchive(header, FileFields(name, t, size));
  }

  method StoreOctal(header: array<u8>, f: Field, v: nat, width: nat, ghost fs: map<Field, seq<u8>>)
    requires header[..] == Layout(fs) && Text(fs, f) == [] && |Octal(v, width)| < Length(f)
    modifies header
    ensures header[..] == Layout(fs[f := Octal(v, width) + [0]])
  {
    var text := FormatInteger(v, width);
    StoreString(header, f, text, fs);
  }

  /** Name, mode and owner. */
  method FillOwner(header: array<u8>, name: seq<u8>, mode: nat)
    requires header[..] == Layout(map[]) && |name| <= 99 && |Octal(mode, 7)| == 7
    modifies header
    ensures header[..] == Layout(OwnerFields(name, mode))
  {
    StoreString(header, Name, name, map[]);
    StoreOctal(header, Mode, mode, 7, map[Name := name + [0]]);
    StoreString(header, Uid, NO_ID, map[Name := name + [0], Mode := Octal(mode, 7) + [0]]);
    StoreString(header, Gid, NO_ID, map[Name := name + [0], Mode := Octal(mode, 7) + [0], Uid := NO_ID + [0]]);
  }

  function OwnerFields(name: seq<u8>, mode: nat): map<Field, seq<u8>> {
    map[Name := name + [0], Mode := Octal(mode, 7) + [0], Uid := NO_ID + [0], Gid := NO_ID + [0]]
  }

  method FillFile(header: array<u8>, name: seq<u8>, t: FileType, size: A.i32)
    requires header[..] == Layout(map[]) && |name| <= 99
    modifies header
    ensures header[..] == Layout(FileFields(name, t, size))
  {
    SmallOctals();
    var mode := if t.Regular? then 420 else 493;
    FillOwner(header, name, mode);
    FillSize(header, t, size, OwnerFields(name, mode));
  }

  /** Size, time and type. */
  method FillSize(header: array<u8>, t: FileType, size: A.i32, ghost fs: map<Field, seq<u8>>)
    requires header[..] == Layout(fs) && Size !in fs && Mtime !in fs && Typeflag !in fs
    modifies header
    ensures header[..] == Layout(fs[Size := Octal(A.Wrap32(size), 11) + [0]][Mtime := Octal(MTIME, 11) + [0]]
                                   [Typeflag := [Flag(t)]])
  {
    SmallOctals();
    StoreOctal(header, Size, A.Wrap32(size), 11, fs);
    ghost var gs := fs[Size := Octal(A.Wrap32(size), 11) + [0]];
    StoreOctal(header, Mtime, MTIME, 11, gs);
    gs := gs[Mtime := Octal(MTIME, 11) + [0]];
    StoreType(header, t, gs);
  }

  method StoreType(header: array<u8>, t: FileType, ghost fs: map<Field, seq<u8>>)
    requires header[..] == Layout(fs) && Typeflag !in fs
    modifies header
    ensures header[..] == Layout(fs[Typeflag := [Flag(t)]])
  {
    assert |header[..]| == HEADER_SIZE;
    PutField(fs, Typeflag, [Flag(t)]);
    header[156] := Flag(t);
    assert header[..] == Put(Layout(fs), 156, [Flag(t)]);
  }

  method StoreVersion(header: array<u8>, ghost fs: map<Field, seq<u8>>)
    requires header[..] == Layout(fs) && Version !in fs
    modifies header
    ensures header[..] == Layout(fs[Version := [ZERO, ZERO]])
  {
    assert |header[..]| == HEADER_SIZE;
    PutField(fs, Version, [ZERO, ZERO]);
    header[263] := ZERO;
    header[264] := ZERO;
    assert header[..] == Put(Layout(fs), 263, [ZERO, ZERO]);
  }

  function ArchiveFields(fs: map<Field, seq<u8>>): map<Field, seq<u8>> {
    fs[Magic := USTAR + [0]][Version := [ZERO, ZERO]][Gname := ROOT + [0]][Uname := ROOT + [0]]
  }

  /** The fields that do not depend on the file, and the checksum. */
  method FillArchive(header: array<u8>, ghost fs: map<Field, seq<u8>>)
    requires header[..] == Layout(fs)
    requires Magic !in fs && Version !in fs && Gname !in fs && Uname !in fs && Chksum !in fs
    modifies header
    ensures header[..] == Layout(ArchiveFields(fs)[Chksum := ChksumText(ArchiveFields(fs))])
  {
    StoreString(header, Magic, USTAR, fs);
    ghost var gs := fs[Magic := USTAR + [0]];
    StoreVersion(header, gs);
    gs := gs[Version := [ZERO, ZERO]];
    StoreString(header, Gname, ROOT, gs);
    gs := gs[Gname := ROOT + [0]];
    StoreString(header, Uname, ROOT, gs);
    gs := gs[Uname := ROOT + [0]];
    StoreChksum(header, gs);
  }

  method StoreChksum(header: array<u8>, ghost fs: map<Field, seq<u8>>)
    requires header[..] == Layout(fs) && Chksum !in fs
    modifies header
    ensures header[..] == Layout(fs[Chksum := ChksumText(fs)])
  {
    SmallOctals();
    assert |header[..]| == HEADER_SIZE;
    var chksum := CalculateChksum(header);
    StoreOctal(header, Chksum, chksum, 7, fs);
  }

  // ----- Parsing a header --------------------------------------------------------

  datatype ParseError =
    | NotUstar | InvalidVersion | CorruptChksum | ChksumMismatch | NameTooLong | UnimplementedType
    | CorruptSize | TooLarge

  datatype Parsed = EndOfArchive | Entry(name: seq<u8>, fileType: FileType, size: nat) | Bad(error: ParseError)

  /** The C string at the start of `s`. */
  function CString(s: seq<u8>): (r: seq<u8>)
    ensures |r| <= |s| && r == s[..|r|] && IsText(r) && (|r| < |s| ==> s[|r|] == 0)
  {
    if s == [] || s[0] == 0 then [] else [s[0]] + CString(s[1..])
  }

  predicate AllZeros(h: seq<u8>) { forall k :: 0 <= k < |h| ==> h[k] == 0 }

  /** The checks in order, given what each field reads as. */
  function Judge(magic: seq<u8>, version: seq<u8>, chksum: Option<nat>, sum: nat, nameEnd: u8, prefix: u8,
                 flag: u8, size: Option<nat>, name: seq<u8>): Parsed
  {
    if magic != USTAR + [0] then Bad(NotUstar)
    else if version != [ZERO, ZERO] then Bad(InvalidVersion)
    else if chksum.None? then Bad(CorruptChksum)
    else if chksum.value != sum then Bad(ChksumMismatch)
    else if nameEnd != 0 || prefix != 0 then Bad(NameTooLong)
    else if flag != Flag(Regular) && flag != Flag(Directory) then Bad(UnimplementedType)
    else if flag == Flag(Directory) then Entry(name, Directory, 0)
    else if size.None? then Bad(CorruptSize)
    else if size.value > INT_MAX then Bad(TooLarge)
    else Entry(name, Regular, size.value)
  }

  function Parse(h: seq<u8>): Parsed
    requires |h| == HEADER_SIZE
  {
    if AllZeros(h) then EndOfArchive
    else Judge(Get(h, Magic), Get(h, Version), ParseOctal(Get(h, Chksum)), Checksum(h), h[99], h[345], h[156],
               ParseOctal(Get(h, Size)), Strip(CString(Get(h, Name))))
  }

  method IsAllZeros(block: array<u8>) returns (r: bool)
    ensures r == AllZeros(block[..])
  {
    var cnt := 0;
    while cnt < block.Length
      invariant cnt <= block.Length && forall k :: 0 <= k < cnt ==> block[k] == 0
    {
      if block[cnt] != 0 { return false; }
      cnt := cnt + 1;
    }
    return true;
  }

  method ParseHeader(header: array<u8>) returns (r: Parsed)
    requires header.Length == HEADER_SIZE
    ensures r == Parse(header[..])
  {
    ghost var h := header[..];
    FieldSlices(h);
    var zeros := IsAllZeros(header);
    if zeros { return EndOfArchive; }
    if header[257..263] != USTAR + [0] { return Bad(NotUstar); }
    if header[263..265] != [ZERO, ZERO] { return Bad(InvalidVersion); }
    var chksum := ParseOctalField(header[148..156]);
    if chksum.None? { return Bad(CorruptChksum); }
    var sum := CalculateChksum(header);
    if chksum.value != sum { return Bad(ChksumMismatch); }
    if header[99] != 0 || header[345] != 0 { return Bad(NameTooLong); }
    if header[156] != 48 && header[156] != 53 { return Bad(UnimplementedType); }
    var size := Some(0);
    if header[156] == 48 {
      size := ParseOctalField(header[124..136]);
      if size.None? { return Bad(CorruptSize); }
      if size.value > INT_MAX { return Bad(TooLarge); }
    }
    var name := StripAntisocialPrefixes(CString(header[0..100]));
    r := Entry(name, if header[156] == 48 then Regular else Directory, size.value);
  }

  lemma FieldSlices(h: seq<u8>)
    requires |h| == HEADER_SIZE
    ensures Get(h, Name) == h[0..100] && Get(h, Size) == h[124..136] && Get(h, Chksum) == h[148..156]
    ensures Get(h, Magic) == h[257..263] && Get(h, Version) == h[263..265]
  {
  }

  // ----- Round trip and tampering ------------------------------------------------

  lemma MadeChecksum(name: seq<u8>, t: FileType, size: A.i32)
    ensures var h := HeaderFor(name, t, size);
            ParseOctal(Get(h, Chksum)) == Some(Checksum(h))
  {
    var fs := AllFields(name, t, size);
    var text := ChksumText(fs);
    var h := HeaderFor(name, t, size);
    SmallOctals();
    FullField(fs[Chksum := text], Chksum);
    forall k | 0 <= k < HEADER_SIZE && !(148 <= k < 156)
      ensures h[k] == Layout(fs)[k]
    {
      assert FieldAt(k) != Chksum;
    }
    SumIgnoresField(h, Layout(fs), 0);
    OctalRoundTrip(Checksum(h), 7);
  }

  lemma MadeName(name: seq<u8>, t: FileType, size: A.i32)
    requires IsText(name) && |name| <= 99
    ensures var h := HeaderFor(name, t, size);
            CString(Get(h, Name)) == name && h[99] == 0 && h[345] == 0
  {
    var fs := AllFields(name, t, size);
    var gs := fs[Chksum := ChksumText(fs)];
    assert Text(gs, Name) == name + [0] && Text(gs, Prefix) == [];
    NameReads(gs, name);
  }

  /** A field holding a name and its null byte reads as the name. */
  lemma NameReads(fs: map<Field, seq<u8>>, name: seq<u8>)
    requires Text(fs, Name) == name + [0] && Text(fs, Prefix) == [] && IsText(name) && |name| <= 99
    ensures var h := Layout(fs);
            CString(Get(h, Name)) == name && h[99] == 0 && h[345] == 0
  {
    var s := Get(Layout(fs), Name);
    forall k: nat | k < 100
      ensures s[k] == CharAt(name + [0], k)
    {
    }
    assert s[..|name|] == name && s[|name|] == 0;
    assert Layout(fs)[99] == s[99];
  }

  lemma MadeFields(name: seq<u8>, t: FileType, size: A.i32)
    requires |name| <= 99
    ensures var h := HeaderFor(name, t, size);
            Get(h, Magic) == USTAR + [0] && Get(h, Version) == [ZERO, ZERO] && h[156] == Flag(t)
  {
    var fs := AllFields(name, t, size);
    var gs := fs[Chksum := ChksumText(fs)];
    FullField(gs, Magic);
    FullField(gs, Version);
  }

  lemma MadeSize(name: seq<u8>, t: FileType, size: A.i32)
    ensures ParseOctal(Get(HeaderFor(name, t, size), Size)) == Some(A.Wrap32(size))
  {
    var fs := AllFields(name, t, size);
    SmallOctals();
    FullField(fs[Chksum := ChksumText(fs)], Size);
    OctalRoundTrip(A.Wrap32(size), 11);
  }

  /** What went into a header: the size is 0 for a directory, and no int is negative. */
  function Given(name: seq<u8>, t: FileType, size: A.i32): Parsed {
    if t.Directory? then Entry(name, Directory, 0)
    else if size >= 0 then Entry(name, Regular, size)
    else Bad(TooLarge)
  }

  /** A made header parses back to the stripped name, the type and the size: 0 for a directory;
      for a regular file the size given exactly when it is not negative. */
  lemma RoundTrip(fileName: seq<u8>, name: seq<u8>, t: FileType, size: A.i32)
    requires IsText(fileName) && StripsTo(fileName, name) && |name| <= 99
    ensures Parse(HeaderFor(name, t, size)) == Given(name, t, size)
  {
    StripsToIff(fileName, name);
    StripFixes(fileName);
    StripKeepsText(fileName);
    MadeParses(name, t, size);
  }

  lemma MadeParses(name: seq<u8>, t: FileType, size: A.i32)
    requires IsText(name) && |name| <= 99 && Strip(name) == name
    ensures Parse(HeaderFor(name, t, size)) == Given(name, t, size)
  {
    MadeInOrder(name, t, size);
    GoodHeader(HeaderFor(name, t, size), name, t, A.Wrap32(size));
    VerdictIsGiven(name, t, size);
  }

  lemma VerdictIsGiven(name: seq<u8>, t: FileType, size: A.i32)
    ensures Verdict(name, t, A.Wrap32(size)) == Given(name, t, size)
  {
  }

  lemma MadeInOrder(name: seq<u8>, t: FileType, size: A.i32)
    requires IsText(name) && |name| <= 99
    ensures InOrder(HeaderFor(name, t, size), name, t, A.Wrap32(size))
  {
    MadeFields(name, t, size);
    MadeSize(name, t, size);
    MadeName(name, t, size);
    MadeChecksum(name, t, size);
  }

  predicate InOrder(h: seq<u8>, name: seq<u8>, t: FileType, size: nat)
    requires |h| == HEADER_SIZE
  {
    Get(h, Magic) == USTAR + [0] && Get(h, Version) == [ZERO, ZERO]
    && ParseOctal(Get(h, Chksum)) == Some(Checksum(h)) && h[99] == 0 && h[345] == 0
    && h[156] == Flag(t) && ParseOctal(Get(h, Size)) == Some(size) && CString(Get(h, Name)) == name
  }

  lemma MagicIsNotZero(h: seq<u8>)
    requires |h| == HEADER_SIZE && Get(h, Magic) == USTAR + [0]
    ensures h[257] == 117 && h[258] == 115 && !AllZeros(h)
  {
    assert Get(h, Magic)[0] == 117 && Get(h, Magic)[0] == h[257];
    assert Get(h, Magic)[1] == 115 && Get(h, Magic)[1] == h[258];
  }

  lemma GoodFields(sum: nat, t: FileType, size: nat, name: seq<u8>)
    ensures Judge(USTAR + [0], [ZERO, ZERO], Some(sum), sum, 0, 0, Flag(t), Some(size), name)
         == Verdict(name, t, size)
  {
  }

  function Verdict(name: seq<u8>, t: FileType, size: nat): Parsed {
    if t.Directory? then Entry(name, Directory, 0)
    else if size <= INT_MAX then Entry(name, Regular, size)
    else Bad(TooLarge)
  }

  /** What the parser makes of a header whose fields are in order. */
  lemma GoodHeader(h: seq<u8>, name: seq<u8>, t: FileType, size: nat)
    requires |h| == HEADER_SIZE && InOrder(h, name, t, size)
    ensures Parse(h) == Verdict(Strip(name), t, size)
  {
    MagicIsNotZero(h);
    GoodFields(Checksum(h), t, size, Strip(name));
  }

  lemma ChksumFieldKept(h: seq<u8>, j: nat, b: u8)
    requires |h| == HEADER_SIZE && j < HEADER_SIZE && !(148 <= j < 156) && b != h[j]
    ensures Get(h[j := b], Chksum) == Get(h, Chksum) && Checksum(h[j := b]) != Checksum(h)
  {
    SumSeesByte(h, j, b, 0);
  }

  /** An accepted header with one byte outside the checksum field changed is rejected. */
  lemma TamperingDetected(h: seq<u8>, j: nat, b: u8)
    requires |h| == HEADER_SIZE && j < HEADER_SIZE && !(148 <= j < 156) && b != h[j]
    ensures Parse(h).Entry? ==> Parse(h[j := b]).Bad?
  {
    if Parse(h).Entry? {
      MagicIsNotZero(h);
      TamperedSum(h, j, b);
    }
  }

  lemma TamperedSum(h: seq<u8>, j: nat, b: u8)
    requires |h| == HEADER_SIZE && j < HEADER_SIZE && !(148 <= j < 156) && b != h[j]
    requires h[257] != 0 && h[258] != 0 && ParseOctal(Get(h, Chksum)) == Some(Checksum(h))
    ensures !AllZeros(h[j := b]) && ParseOctal(Get(h[j := b], Chksum)) != Some(Checksum(h[j := b]))
  {
    ChksumFieldKept(h, j, b);
    assert h[j := b][257] != 0 || h[j := b][258] != 0;
  }

  /** Whatever is accepted has a safe name of at most 99 bytes, and a size that an int holds. */
  lemma AcceptedIsSafe(h: seq<u8>)
    requires |h| == HEADER_SIZE
    ensures var r := Parse(h);
            r.Entry? ==> SafeStart(r.name) && IsText(r.name) && |r.name| <= 99
                         && r.size <= INT_MAX && (r.fileType.Directory? ==> r.size == 0)
  {
    NameIsSafe(Get(h, Name));
    NameEnds(h);
    EntryJudged(Get(h, Magic), Get(h, Version), ParseOctal(Get(h, Chksum)), Checksum(h), h[99], h[345], h[156],
                ParseOctal(Get(h, Size)), Strip(CString(Get(h, Name))));
  }

  lemma EntryJudged(magic: seq<u8>, version: seq<u8>, chksum: Option<nat>, sum: nat, nameEnd: u8, prefix: u8,
                    flag: u8, size: Option<nat>, name: seq<u8>)
    ensures var r := Judge(magic, version, chksum, sum, nameEnd, prefix, flag, size, name);
            r.Entry? ==> r.name == name && nameEnd == 0 && r.size <= INT_MAX && (r.fileType.Directory? ==> r.size == 0)
  {
  }

  /** The byte that is checked for the name's end is the last of the name's field. */
  lemma NameEnds(h: seq<u8>)
    requires |h| == HEADER_SIZE
    ensures |Get(h, Name)| == 100 && Get(h, Name)[99] == h[99]
  {
  }

  lemma NameIsSafe(field: seq<u8>)
    requires |field| == 100
    ensures var name := Strip(CString(field));
            SafeStart(name) && IsText(name) && (field[99] == 0 ==> |name| <= 99)
  {
    var s := CString(field);
    if field[99] == 0 { ShortString(field, 99); }
    StripFixes(s);
    StripKeepsText(s);
  }

  lemma ShortString(s: seq<u8>, n: nat)
    requires n < |s| && s[n] == 0
    ensures |CString(s)| <= n
  {
    assert forall k :: 0 <= k < |CString(s)| ==> s[k] == CString(s)[k] != 0;
  }

  // ----- What the bytes are ----------------------------------------------------------------------

  /** The bytes from `i` to `j` are `s` and then zeros. */
  ghost predicate Reads(h: seq<u8>, i: nat, j: nat, s: seq<u8>) {
    && i + |s| <= j <= |h|
    && (forall k :: 0 <= k < |s| ==> h[i + k] == s[k]) && (forall k :: i + |s| <= k < j ==> h[k] == 0)
  }

  lemma FieldReads(fs: map<Field, seq<u8>>, f: Field)
    requires |Text(fs, f)| <= Length(f)
    ensures Reads(Layout(fs), Start(f), Start(f) + Length(f), Text(fs, f))
  {
  }

  lemma ModeDigits()
    ensures Octal(420, 7) == [48, 48, 48, 48, 54, 52, 52] && Octal(493, 7) == [48, 48, 48, 48, 55, 53, 53]
  {
    assert Digits(420) == [54, 52, 52] by { assert Digits(52) == [54, 52]; }
    assert Digits(493) == [55, 53, 53] by { assert Digits(61) == [55, 53]; }
    assert Repeat(ZERO, 4) == [48, 48, 48, 48];
  }

  lemma MtimeDigits()
    ensures Digits(1136102400) == [49, 48, 51, 53, 53, 55, 48, 54, 48, 48, 48]
  {
    assert Digits(8) == [49, 48];
    assert Digits(67) == [49, 48, 51];
    assert Digits(541) == [49, 48, 51, 53];
    assert Digits(4333) == [49, 48, 51, 53, 53];
    assert Digits(34671) == [49, 48, 51, 53, 53, 55];
    assert Digits(277368) == [49, 48, 51, 53, 53, 55, 48];
    assert Digits(2218950) == [49, 48, 51, 53, 53, 55, 48, 54];
    assert Digits(17751600) == [49, 48, 51, 53, 53, 55, 48, 54, 48];
    assert Digits(142012800) == [49, 48, 51, 53, 53, 55, 48, 54, 48, 48];
  }

  /** The fields of a made header, where the format has them: name; mode 0644, or 0755 for a directory;
      owner 0 and group 0; size; the fixed time; type '0' or '5'; no link name; magic and version;
      owner and group root; and nothing else but the checksum. */
  ghost predicate MadeBytes(h: seq<u8>, name: seq<u8>, t: FileType, size: A.i32) {
    OwnerBytes(h, name, t) && DataBytes(h, t, size) && ArchiveBytes(h)
  }

  ghost predicate OwnerBytes(h: seq<u8>, name: seq<u8>, t: FileType) {
    && Reads(h, 0, 100, name)
    && Reads(h, 100, 108, if t.Directory? then [48, 48, 48, 48, 55, 53, 53] else [48, 48, 48, 48, 54, 52, 52])
    && Reads(h, 108, 116, [48, 48, 48, 48, 48, 48, 48]) && Reads(h, 116, 124, [48, 48, 48, 48, 48, 48, 48])
  }

  ghost predicate DataBytes(h: seq<u8>, t: FileType, size: A.i32) {
    && Reads(h, 124, 136, Octal(if size >= 0 then size else size + 0x1_0000_0000, 11))
    && Reads(h, 136, 148, [49, 48, 51, 53, 53, 55, 48, 54, 48, 48, 48])
    && Reads(h, 156, 157, [if t.Directory? then 53 else 48]) && Reads(h, 157, 257, [])
  }

  ghost predicate ArchiveBytes(h: seq<u8>) {
    && Reads(h, 257, 263, [117, 115, 116, 97, 114]) && Reads(h, 263, 265, [48, 48])
    && Reads(h, 265, 297, [114, 111, 111, 116]) && Reads(h, 297, 329, [114, 111, 111, 116])
    && Reads(h, 329, 512, [])
  }

  lemma HeaderBytes(name: seq<u8>, t: FileType, size: A.i32)
    requires |name| <= 99
    ensures MadeBytes(HeaderFor(name, t, size), name, t, size)
  {
    var fs := AllFields(name, t, size);
    FileTexts(name, t, size, ChksumText(fs));
    ArchiveTexts(name, t, size, ChksumText(fs));
    OwnerReads(fs[Chksum := ChksumText(fs)], name, t);
    DataReads(fs[Chksum := ChksumText(fs)], t, size);
    ArchiveReads(fs[Chksum := ChksumText(fs)]);
  }

  lemma FileTexts(name: seq<u8>, t: FileType, size: A.i32, sum: seq<u8>)
    ensures var fs := AllFields(name, t, size)[Chksum := sum];
            && Text(fs, Name) == name + [0] && Text(fs, Mode) == Octal(if t.Regular? then 420 else 493, 7) + [0]
            && Text(fs, Uid) == NO_ID + [0] && Text(fs, Gid) == NO_ID + [0]
            && Text(fs, Size) == Octal(A.Wrap32(size), 11) + [0] && Text(fs, Mtime) == Octal(MTIME, 11) + [0]
            && Text(fs, Typeflag) == [Flag(t)] && Text(fs, Linkname) == []
  {
    ArchiveKeepsTexts(FileFields(name, t, size), sum);
    OwnTexts(name, t, size);
  }

  lemma OwnTexts(name: seq<u8>, t: FileType, size: A.i32)
    ensures var fs := FileFields(name, t, size);
            && Text(fs, Name) == name + [0] && Text(fs, Mode) == Octal(if t.Regular? then 420 else 493, 7) + [0]
            && Text(fs, Uid) == NO_ID + [0] && Text(fs, Gid) == NO_ID + [0]
            && Text(fs, Size) == Octal(A.Wrap32(size), 11) + [0] && Text(fs, Mtime) == Octal(MTIME, 11) + [0]
            && Text(fs, Typeflag) == [Flag(t)] && Text(fs, Linkname) == []
  {
  }

  lemma ArchiveKeepsTexts(fs: map<Field, seq<u8>>, sum: seq<u8>)
    ensures forall f :: f !in {Magic, Version, Gname, Uname, Chksum} ==> Text(ArchiveFields(fs)[Chksum := sum], f) == Text(fs, f)
  {
  }

  lemma ArchiveTexts(name: seq<u8>, t: FileType, size: A.i32, sum: seq<u8>)
    ensures var fs := AllFields(name, t, size)[Chksum := sum];
            && Text(fs, Magic) == USTAR + [0] && Text(fs, Version) == [ZERO, ZERO]
            && Text(fs, Uname) == ROOT + [0] && Text(fs, Gname) == ROOT + [0]
            && Devmajor !in fs && Devminor !in fs && Prefix !in fs && Padding !in fs
  {
  }

  lemma OwnerReads(fs: map<Field, seq<u8>>, name: seq<u8>, t: FileType)
    requires |name| <= 99 && Text(fs, Name) == name + [0] && Text(fs, Mode) == Octal(if t.Regular? then 420 else 493, 7) + [0]
    requires Text(fs, Uid) == NO_ID + [0] && Text(fs, Gid) == NO_ID + [0]
    ensures OwnerBytes(Layout(fs), name, t)
  {
    ModeDigits();
    TextReads(fs, Name, name);
    TextReads(fs, Mode, Octal(if t.Regular? then 420 else 493, 7));
    TextReads(fs, Uid, NO_ID);
    TextReads(fs, Gid, NO_ID);
  }

  lemma DataReads(fs: map<Field, seq<u8>>, t: FileType, size: A.i32)
    requires Text(fs, Size) == Octal(A.Wrap32(size), 11) + [0] && Text(fs, Mtime) == Octal(MTIME, 11) + [0]
    requires Text(fs, Typeflag) == [Flag(t)] && Text(fs, Linkname) == []
    ensures DataBytes(Layout(fs), t, size)
  {
    SizeReads(fs, size);
    TimeReads(fs);
    FieldReads(fs, Typeflag);
    FieldReads(fs, Linkname);
  }

  lemma SizeReads(fs: map<Field, seq<u8>>, size: A.i32)
    requires Text(fs, Size) == Octal(A.Wrap32(size), 11) + [0]
    ensures Reads(Layout(fs), 124, 136, Octal(if size >= 0 then size else size + 0x1_0000_0000, 11))
  {
    ElevenDigits(A.Wrap32(size));
    TextReads(fs, Size, Octal(A.Wrap32(size), 11));
    assert A.Wrap32(size) == if size >= 0 then size else size + 0x1_0000_0000;
  }

  lemma ElevenDigits(v: nat)
    requires v < A.B32
    ensures |Octal(v, 11)| == 11
  {
    SmallOctals();
  }

  lemma TimeReads(fs: map<Field, seq<u8>>)
    requires Text(fs, Mtime) == Octal(MTIME, 11) + [0]
    ensures Reads(Layout(fs), 136, 148, [49, 48, 51, 53, 53, 55, 48, 54, 48, 48, 48])
  {
    MtimeDigits();
    assert Octal(MTIME, 11) == Digits(MTIME);
    TextReads(fs, Mtime, Octal(MTIME, 11));
  }

  lemma ArchiveReads(fs: map<Field, seq<u8>>)
    requires Text(fs, Magic) == USTAR + [0] && Text(fs, Version) == [ZERO, ZERO]
    requires Text(fs, Uname) == ROOT + [0] && Text(fs, Gname) == ROOT + [0]
    requires Devmajor !in fs && Devminor !in fs && Prefix !in fs && Padding !in fs
    ensures ArchiveBytes(Layout(fs))
  {
    MagicReads(fs);
    TextReads(fs, Uname, ROOT);
    TextReads(fs, Gname, ROOT);
    RestReads(fs);
  }

  lemma MagicReads(fs: map<Field, seq<u8>>)
    requires Text(fs, Magic) == USTAR + [0] && Text(fs, Version) == [ZERO, ZERO]
    ensures Reads(Layout(fs), 257, 263, [117, 115, 116, 97, 114]) && Reads(Layout(fs), 263, 265, [48, 48])
  {
    TextReads(fs, Magic, USTAR);
    FieldReads(fs, Version);
  }

  lemma TextReads(fs: map<Field, seq<u8>>, f: Field, s: seq<u8>)
    requires Text(fs, f) == s + [0] && |s| < Length(f)
    ensures Reads(Layout(fs), Start(f), Start(f) + Length(f), s)
  {
    FieldReads(fs, f);
    NullReads(Layout(fs), Start(f), Start(f) + Length(f), s);
  }

  lemma NullReads(h: seq<u8>, i: nat, j: nat, s: seq<u8>)
    requires Reads(h, i, j, s + [0])
    ensures Reads(h, i, j, s)
  {
    forall k | 0 <= k < |s| ensures h[i + k] == s[k] { assert (s + [0])[k] == s[k]; }
    assert h[i + |s|] == (s + [0])[|s|];
  }

  lemma RestReads(fs: map<Field, seq<u8>>)
    requires Devmajor !in fs && Devminor !in fs && Prefix !in fs && Padding !in fs
    ensures Reads(Layout(fs), 329, 512, [])
  {
  }

  // ----- Which error is reported ----------------------------------------------------------------

  /** The check behind each error, on the bytes where the format has the field. */
  ghost predicate Fails(h: seq<u8>, e: ParseError)
    requires |h| == HEADER_SIZE
  {
    match e
    case NotUstar => h[257..263] != [117, 115, 116, 97, 114, 0]
    case InvalidVersion => h[263] != 48 || h[264] != 48
    case CorruptChksum => ParseOctal(h[148..156]).None?
    case ChksumMismatch => ParseOctal(h[148..156]) != Some(Checksum(h))
    case NameTooLong => h[99] != 0 || h[345] != 0
    case UnimplementedType => h[156] != 48 && h[156] != 53
    case CorruptSize => h[156] == 48 && ParseOctal(h[124..136]).None?
    case TooLarge => h[156] == 48 && ParseOctal(h[124..136]).Some? && ParseOctal(h[124..136]).value > 0x7FFF_FFFF
  }

  function Rank(e: ParseError): nat {
    match e
    case NotUstar => 0
    case InvalidVersion => 1
    case CorruptChksum => 2
    case ChksumMismatch => 3
    case NameTooLong => 4
    case UnimplementedType => 5
    case CorruptSize => 6
    case TooLarge => 7
  }

  /** Only a block of zeros ends the archive; the error reported is that of the first check that fails,
      in this order; and a header that fails none is an entry. */
  lemma ReportsFirstFailure(h: seq<u8>, e: ParseError)
    requires |h| == HEADER_SIZE
    ensures Parse(h).EndOfArchive? <==> forall k :: 0 <= k < HEADER_SIZE ==> h[k] == 0
    ensures Parse(h) == Bad(e) <==> !Parse(h).EndOfArchive? && Fails(h, e) && forall f :: Rank(f) < Rank(e) ==> !Fails(h, f)
    ensures Parse(h).Entry? <==> !Parse(h).EndOfArchive? && forall f :: !Fails(h, f)
  {
    FailsJudged(h);
  }

  /** What the parser looks at. */
  lemma FailsJudged(h: seq<u8>)
    requires |h| == HEADER_SIZE
    ensures Fails(h, NotUstar) <==> Get(h, Magic) != USTAR + [0]
    ensures Fails(h, InvalidVersion) <==> Get(h, Version) != [ZERO, ZERO]
    ensures Fails(h, CorruptChksum) <==> ParseOctal(Get(h, Chksum)).None?
    ensures Fails(h, ChksumMismatch) <==> ParseOctal(Get(h, Chksum)) != Some(Checksum(h))
    ensures Fails(h, NameTooLong) <==> h[99] != 0 || h[345] != 0
    ensures Fails(h, UnimplementedType) <==> h[156] != Flag(Regular) && h[156] != Flag(Directory)
    ensures Fails(h, CorruptSize) <==> h[156] == Flag(Regular) && ParseOctal(Get(h, Size)).None?
    ensures Fails(h, TooLarge) <==>
              h[156] == Flag(Regular) && ParseOctal(Get(h, Size)).Some? && ParseOctal(Get(h, Size)).value > INT_MAX
  {
    FieldSlices(h);
    assert USTAR + [0] == [117, 115, 116, 97, 114, 0];
    assert Get(h, Version) == [h[263], h[264]];
  }

  /** An entry is the stripped name that ends at the first null byte, the type of the flag, and for a
      regular file the size. */
  lemma EntryReads(h: seq<u8>)
    requires |h| == HEADER_SIZE && Parse(h).Entry?
    ensures StripsTo(CString(h[0..100]), Parse(h).name)
    ensures Parse(h).fileType == if h[156] == 53 then Directory else Regular
    ensures if h[156] == 53 then Parse(h).size == 0 else ParseOctal(h[124..136]) == Some(Parse(h).size)
  {
    FieldSlices(h);
    StripsToIff(CString(h[0..100]), Parse(h).name);
  }
}
