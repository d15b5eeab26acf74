/**
 The number and field formats a data ID is made of: unsigned decimals and lowercase hexadecimals
 (strconv and fmt), hex text for bytes, and colon-separated fields (strings.SplitN).
 */
module Numerals {
  import opened Basics

  /** The two bases in use. */
  predicate IsBase(base: nat) {
    base == 10 || base == 16
  }

  function DigitChar(d: nat): char
    requires d < 16
  {
    if d < 10 then (d + 48) as char else (d + 87) as char
  }

  /** Upper-case digits are read but never printed. */
  function DigitValue(c: char): Option<nat> {
    if '0' <= c <= '9' then Some(c as int - 48)
    else if 'a' <= c <= 'z' then Some(c as int - 87)
    else if 'A' <= c <= 'Z' then Some(c as int - 55)
    else None
  }

  function FormatUint(n: nat, base: nat): string
    requires IsBase(base)
  {
    if n < base then [DigitChar(n)] else FormatUint(n / base, base) + [DigitChar(n % base)]
  }

  function ParseDigits(s: string, base: nat): Option<nat>
    requires IsBase(base)
  {
    if s == [] then Some(0)
    else
      match (ParseDigits(s[..|s| - 1], base), DigitValue(s[|s| - 1]))
      case (Some(high), Some(d)) => if d < base then Some(high * base + d) else None
      case _ => None
  }

  /** strconv.ParseUint; `limit` is two to the bit size. */
  function ParseUint(s: string, base: nat, limit: nat): Option<nat>
    requires IsBase(base)
  {
    if s == [] then None
    else
      match ParseDigits(s, base)
      case Some(n) => if n < limit then Some(n) else None
      case None => None
  }

  /** strconv.ParseInt with base 10 and bit size 32: one optional sign, then the digits. */
  function ParseInt32(s: string): Option<int> {
    if s == [] then None
    else
      var neg := s[0] == '-';
      match ParseUint(if neg || s[0] == '+' then s[1..] else s, 10, TWO_32)
      case Some(n) =>
        if neg && n <= TWO_31 then Some(0 - n)
        else if !neg && n < TWO_31 then Some(n)
        else None
      case None => None
  }

  function HexEncode(bs: bytes): string {
    if bs == [] then [] else [DigitChar(bs[0] / 16), DigitChar(bs[0] % 16)] + HexEncode(bs[1..])
  }

  function HexValue(c: char): Option<nat> {
    match DigitValue(c)
    case Some(d) => if d < 16 then Some(d) else None
    case None => None
  }

  /** hex.AppendDecode onto an empty slice. */
  function HexDecode(s: string): Option<bytes> {
    if s == [] then Some([])
    else if |s| == 1 then None
    else
      match (HexValue(s[0]), HexValue(s[1]), HexDecode(s[2..]))
      case (Some(hi), Some(lo), Some(rest)) => Some([hi * 16 + lo] + rest)
      case _ => None
  }

  /** All the colon-separated fields of `s`. */
  function Fields(s: string): (fs: seq<string>)
    ensures fs != []
  {
    if s == [] then [[]] else Extend(s[0], Fields(s[1..]))
  }

  /** The fields once one more character is put in front. */
  function Extend(c: char, fs: seq<string>): (r: seq<string>)
    requires fs != []
    ensures r != []
  {
    if c == ':' then [[]] + fs else [[c] + fs[0]] + fs[1..]
  }

  function Join(fs: seq<string>): string {
    if fs == [] then [] else if |fs| == 1 then fs[0] else fs[0] + ":" + Join(fs[1..])
  }

  /** strings.SplitN(s, ":", n): at most n fields, the last one with whatever follows left unsplit. */
  function SplitN(s: string, n: nat): (fs: seq<string>)
    requires n >= 1
    ensures |fs| == if |Fields(s)| <= n then |Fields(s)| else n
  {
    var all := Fields(s);
    if |all| <= n then all else all[..n - 1] + [Join(all[n - 1..])]
  }

  predicate HasSuffix(s: string, suffix: string) {
    |suffix| <= |s| && s[|s| - |suffix|..] == suffix
  }

  // ----- number round trips

  lemma DigitRoundTrip(d: nat)
    requires d < 16
    ensures DigitValue(DigitChar(d)) == Some(d) == HexValue(DigitChar(d))
    ensures DigitChar(d) !in [':', '+', '-']
  {
  }

  lemma ParseOneMore(s: string, c: char, base: nat, v: nat, d: nat)
    requires IsBase(base) && s != [] && ParseDigits(s, base) == Some(v) && DigitValue(c) == Some(d) && d < base
    ensures ParseDigits(s + [c], base) == Some(v * base + d)
  {
    assert (s + [c])[..|s|] == s;
  }

  lemma QuotientRemainder(n: nat, base: nat)
    requires IsBase(base)
    ensures n / base * base + n % base == n
  {
    assert base == 10 || base == 16;
  }

  lemma {:induction false} ParseDigitsFormat(n: nat, base: nat)
    requires IsBase(base)
    ensures ParseDigits(FormatUint(n, base), base) == Some(n)
    ensures forall c :: c in FormatUint(n, base) ==> c !in [':', '+', '-']
    ensures FormatUint(n, base) != []
  {
    if n < base {
      DigitRoundTrip(n);
      assert FormatUint(n, base)[..0] == [];
    } else {
      ParseDigitsFormat(n / base, base);
      DigitRoundTrip(n % base);
      ParseOneMore(FormatUint(n / base, base), DigitChar(n % base), base, n / base, n % base);
      QuotientRemainder(n, base);
    }
  }

  /** Printing then parsing recovers a number exactly when it fits the reader's bit size. */
  lemma ParseFormatUint(n: nat, base: nat, limit: nat)
    requires IsBase(base)
    ensures ParseUint(FormatUint(n, base), base, limit) == if n < limit then Some(n) else None
    ensures ':' !in FormatUint(n, base)
  {
    ParseDigitsFormat(n, base);
  }

  lemma ParseFormatInt32(n: nat)
    ensures ParseInt32(FormatUint(n, 10)) == if n < TWO_31 then Some(n) else None
  {
    ParseDigitsFormat(n, 10);
    var s := FormatUint(n, 10);
    assert s[0] in s;
    ParseFormatUint(n, 10, TWO_32);
  }

  lemma {:induction false} HexRoundTrip(bs: bytes)
    ensures HexDecode(HexEncode(bs)) == Some(bs)
    ensures |HexEncode(bs)| == 2 * |bs|
    ensures ':' !in HexEncode(bs)
  {
    if bs != [] {
      HexRoundTrip(bs[1..]);
      DigitRoundTrip(bs[0] / 16);
      DigitRoundTrip(bs[0] % 16);
      assert HexEncode(bs)[2..] == HexEncode(bs[1..]);
      assert bs == [bs[0]] + bs[1..];
    }
  }

  // ----- fields

  lemma {:induction false} FieldsWhole(a: string)
    requires ':' !in a
    ensures Fields(a) == [a]
  {
    if a != [] {
      FieldsWhole(a[1..]);
      assert a == [a[0]] + a[1..];
    }
  }

  lemma {:induction false} FieldsAppend(a: string, b: string)
    ensures Fields(a + ":" + b) == Fields(a) + Fields(b)
  {
    var s := a + ":" + b;
    if a == [] {
      assert s[1..] == b;
    } else {
      FieldsAppend(a[1..], b);
      assert s[1..] == a[1..] + ":" + b;
      ExtendAppend(a[0], Fields(a[1..]), Fields(b));
    }
  }

  lemma ExtendAppend(c: char, fs: seq<string>, gs: seq<string>)
    requires fs != []
    ensures Extend(c, fs + gs) == Extend(c, fs) + gs
  {
  }

  /** Colon-free fields are found again. */
  lemma {:induction false} FieldsJoin(fs: seq<string>)
    requires fs != []
    requires forall f :: f in fs ==> ':' !in f
    ensures Fields(Join(fs)) == fs
  {
    FieldsWhole(fs[0]);
    if |fs| > 1 {
      FieldsJoin(fs[1..]);
      FieldsAppend(fs[0], Join(fs[1..]));
    }
  }

  lemma JoinExtend(c: char, fs: seq<string>)
    requires fs != []
    ensures Join(Extend(c, fs)) == [c] + Join(fs)
  {
    if c == ':' {
      assert ([[]] + fs)[1..] == fs;
    } else {
      assert Extend(c, fs)[1..] == fs[1..];
    }
  }

  /** Splitting loses nothing. */
  lemma {:induction false} JoinFields(s: string)
    ensures Join(Fields(s)) == s
  {
    if s != [] {
      JoinFields(s[1..]);
      JoinExtend(s[0], Fields(s[1..]));
      assert s == [s[0]] + s[1..];
    }
  }

  // ----- what the texts look like

  predicate NoCapitals(s: string) {
    forall i :: 0 <= i < |s| ==> !('A' <= s[i] <= 'Z')
  }

  /** No needless zero in front, and no capitals. */
  predicate Canonical(s: string) {
    s != [] && (|s| == 1 || s[0] != '0') && NoCapitals(s)
  }

  lemma DigitInverse(c: char)
    requires !('A' <= c <= 'Z') && DigitValue(c).Some? && DigitValue(c).value < 16
    ensures DigitChar(DigitValue(c).value) == c
  {
  }

  /** Printing inverts reading on canonical numerals. */
  lemma {:induction false} FormatParse(s: string, base: nat, n: nat)
    requires IsBase(base) && Canonical(s) && ParseDigits(s, base) == Some(n)
    ensures FormatUint(n, base) == s
  {
    var front, c := s[..|s| - 1], s[|s| - 1];
    var d := DigitValue(c).value;
    DigitInverse(c);
    if |s| == 1 {
      assert ParseDigits(front, base) == Some(0);
      assert s == [c];
    } else {
      var high := ParseDigits(front, base).value;
      assert Canonical(front);
      FormatParse(front, base, high);
      assert FormatUint(0, base)[0] == '0';
      QuotientOf(high, d, base);
      assert s == front + [c];
    }
  }

  lemma QuotientOf(high: nat, d: nat, base: nat)
    requires IsBase(base) && high > 0 && d < base
    ensures high * base + d >= base && (high * base + d) / base == high && (high * base + d) % base == d
  {
    assert base == 10 || base == 16;
  }

  lemma {:induction false} HexInverse(s: string, bs: bytes)
    requires NoCapitals(s) && HexDecode(s) == Some(bs)
    ensures HexEncode(bs) == s
  {
    if s != [] {
      DigitInverse(s[0]);
      DigitInverse(s[1]);
      HexInverse(s[2..], bs[1..]);
      assert s == [s[0], s[1]] + s[2..];
    }
  }

  lemma KnownNumerals()
    ensures FormatUint(1203, 10) == "1203" && FormatUint(0xbee, 16) == "bee"
    ensures HexEncode([0x0e, 0x57]) == "0e57" && HexValue('E') == Some(14) == HexValue('e') && HexValue('g') == None
  {
    assert FormatUint(12, 10) == "12" && FormatUint(120, 10) == "120";
    assert FormatUint(0xbe, 16) == "be";
    assert HexEncode([0x57]) == "57";
    assert [0x0e, 0x57][1..] == [0x57];
  }

  /** One optional sign, and the range of 32 bits. */
  lemma SignedNumerals(n: nat)
    ensures ParseInt32("-" + FormatUint(n, 10)) == if n <= 0x8000_0000 then Some(0 - n) else None
    ensures ParseInt32("+" + FormatUint(n, 10)) == if n < 0x8000_0000 then Some(n) else None
    ensures ParseInt32("") == None
  {
    ParseFormatUint(n, 10, TWO_32);
    assert ("-" + FormatUint(n, 10))[1..] == FormatUint(n, 10) == ("+" + FormatUint(n, 10))[1..];
  }
}
