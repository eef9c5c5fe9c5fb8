/**
 * The Python string built-ins the core relies on, stated on `seq<char>`:
 * `str.isspace`/`str.strip`, `str.lstrip(ch)`, ASCII `str.lower`, slicing,
 * `repr` of a string, `int(t, 16)` and the `"{:02x}"` format of one byte.
 */
module PyText {
  import opened Common

  /**
   * The ASCII characters for which Python's `str.isspace()` holds (tab, line feed,
   * vertical tab, form feed, carriage return, the four separators 0x1C-0x1F and space);
   * `str.strip()` removes these.
   */
  predicate IsSpace(c: char) {
    ('\t' <= c <= '\r') || ('\U{001C}' <= c <= ' ')
  }

  /** Every character of `t` is whitespace. */
  predicate AllSpace(t: string) {
    forall i :: 0 <= i < |t| ==> IsSpace(t[i])
  }

  /** The number of whitespace characters `s` starts with. */
  function LeadingSpaces(s: string): (n: nat)
    ensures n <= |s|
    ensures AllSpace(s[..n])
    ensures n == |s| || !IsSpace(s[n])
  {
    if |s| > 0 && IsSpace(s[0]) then
      var n := 1 + LeadingSpaces(s[1..]);
      assert s[..n] == [s[0]] + s[1..][..n - 1];
      n
    else 0
  }

  /** `s.strip()`: whitespace is removed from both ends. */
  function Strip(s: string): (r: string)
    decreases |s|
    ensures |r| <= |s|
    ensures r == [] || (!IsSpace(r[0]) && !IsSpace(r[|r| - 1]))
  {
    if |s| > 0 && IsSpace(s[0]) then Strip(s[1..])
    else if |s| > 0 && IsSpace(s[|s| - 1]) then Strip(s[..|s| - 1])
    else s
  }

  /** One step of `strip()` at the front. */
  lemma StripFront(s: string)
    requires |s| > 0 && IsSpace(s[0])
    ensures Strip(s) == Strip(s[1..]) && LeadingSpaces(s) == 1 + LeadingSpaces(s[1..])
  {
  }

  /** One step of `strip()` at the back, once the front is clean. */
  lemma StripBack(s: string)
    requires |s| > 0 && !IsSpace(s[0]) && IsSpace(s[|s| - 1])
    ensures |s| > 1 && Strip(s) == Strip(s[..|s| - 1])
    ensures LeadingSpaces(s) == 0 && LeadingSpaces(s[..|s| - 1]) == 0
  {
  }

  /** Slicing after dropping the first element is slicing one further on. */
  lemma SliceOfTail(s: string, i: nat, j: nat)
    requires |s| > 0 && i <= j <= |s| - 1
    ensures s[1..][i..j] == s[i + 1..j + 1]
    ensures s[1..][j..] == s[j + 1..]
  {
  }

  /** A suffix of everything but the last element, extended by that element. */
  lemma SuffixOfInit(s: string, j: nat)
    requires |s| > 0 && j <= |s| - 1
    ensures s[j..] == s[..|s| - 1][j..] + [s[|s| - 1]]
    ensures s[..|s| - 1][..j] == s[..j]
  {
  }

  /** `s.strip()` is the middle of `s` that starts after its leading whitespace. */
  lemma {:induction false} StripIsMiddle(s: string)
    ensures LeadingSpaces(s) + |Strip(s)| <= |s|
    ensures Strip(s) == s[LeadingSpaces(s)..LeadingSpaces(s) + |Strip(s)|]
    decreases |s|
  {
    if |s| > 0 && IsSpace(s[0]) {
      var t := s[1..];
      StripFront(s);
      StripIsMiddle(t);
      SliceOfTail(s, LeadingSpaces(t), LeadingSpaces(t) + |Strip(t)|);
    } else if |s| > 0 && IsSpace(s[|s| - 1]) {
      var t := s[..|s| - 1];
      StripBack(s);
      StripIsMiddle(t);
      SuffixOfInit(s, |Strip(t)|);
    }
  }

  /** What `s.strip()` removes after the middle is whitespace. */
  lemma {:induction false} StripRemovesTrailing(s: string)
    ensures LeadingSpaces(s) + |Strip(s)| <= |s|
    ensures AllSpace(s[LeadingSpaces(s) + |Strip(s)|..])
    decreases |s|
  {
    StripIsMiddle(s);
    if |s| > 0 && IsSpace(s[0]) {
      var t := s[1..];
      StripFront(s);
      StripRemovesTrailing(t);
      SliceOfTail(s, LeadingSpaces(t), LeadingSpaces(t) + |Strip(t)|);
    } else if |s| > 0 && IsSpace(s[|s| - 1]) {
      var t := s[..|s| - 1];
      StripBack(s);
      StripRemovesTrailing(t);
      SuffixOfInit(s, |Strip(t)|);
    }
  }

  /** A string without surrounding whitespace is its own `strip()`. */
  lemma StripOfStripped(s: string)
    requires s == [] || (!IsSpace(s[0]) && !IsSpace(s[|s| - 1]))
    ensures Strip(s) == s
  {
  }

  /** One leading space in front of a string without surrounding whitespace is all `strip()` removes. */
  lemma StripOfOneLeadingSpace(c: char, t: string)
    requires IsSpace(c)
    requires t == [] || (!IsSpace(t[0]) && !IsSpace(t[|t| - 1]))
    ensures Strip([c] + t) == t
  {
    assert ([c] + t)[1..] == t;
  }

  /** Every character of `t` is `c`. */
  predicate AllChar(t: string, c: char) {
    forall i :: 0 <= i < |t| ==> t[i] == c
  }

  /** `s.lstrip(c)`: `s` without every leading copy of `c`. */
  function LStripChar(s: string, c: char): (r: string)
    ensures |r| <= |s| && r == s[|s| - |r|..]
    ensures AllChar(s[..|s| - |r|], c)
    ensures r == [] || r[0] != c
  {
    if |s| > 0 && s[0] == c then
      var r := LStripChar(s[1..], c);
      assert s[..|s| - |r|] == [c] + s[1..][..|s| - 1 - |r|];
      r
    else s
  }

  /** `lstrip(c)` leaves a string alone that does not start with `c`. */
  lemma LStripCharOfOther(t: string, c: char)
    requires t == [] || t[0] != c
    ensures LStripChar(t, c) == t
  {
  }

  /** `lstrip(c)` of a string with exactly one leading `c` drops that character. */
  lemma LStripCharOnce(s: string, c: char)
    requires |s| > 1 && s[0] == c && s[1] != c
    ensures LStripChar(s, c) == s[1..]
  {
    LStripCharOfOther(s[1..], c);
  }

  /** Python's slice `s[i:j]` for non-negative bounds, which clamps both bounds to `len(s)`. */
  function Slice(s: string, i: nat, j: nat): (r: string)
    ensures |r| <= 2 || j - i > 2
    ensures i <= j <= |s| ==> r == s[i..j]
  {
    var lo := if i < |s| then i else |s|;
    var hi := if j < |s| then j else |s|;
    if lo <= hi then s[lo..hi] else ""
  }

  predicate IsHexDigit(c: char) {
    ('0' <= c <= '9') || ('a' <= c <= 'f') || ('A' <= c <= 'F')
  }

  predicate IsLowerHexDigit(c: char) {
    ('0' <= c <= '9') || ('a' <= c <= 'f')
  }

  predicate AllHexDigits(s: string) {
    forall i :: 0 <= i < |s| ==> IsHexDigit(s[i])
  }

  predicate AllLowerHexDigits(s: string) {
    forall i :: 0 <= i < |s| ==> IsLowerHexDigit(s[i])
  }

  /** The value of one hex digit of either case. */
  function HexValue(c: char): (v: nat)
    requires IsHexDigit(c)
    ensures v < 16
  {
    if '0' <= c <= '9' then c as int - '0' as int
    else if 'a' <= c <= 'f' then c as int - 'a' as int + 10
    else c as int - 'A' as int + 10
  }

  /** The lowercase hex digit of a value below 16. */
  function HexDigit(v: nat): (c: char)
    requires v < 16
    ensures IsLowerHexDigit(c) && HexValue(c) == v
  {
    if v < 10 then ('0' as int + v) as char else ('a' as int + v - 10) as char
  }

  /** A lowercase hex digit is the digit of its own value. */
  lemma HexDigitOfValue(c: char)
    requires IsLowerHexDigit(c)
    ensures HexDigit(HexValue(c)) == c
  {
  }

  /** ASCII `str.lower()` on one character. */
  function ToLower(c: char): (r: char)
    ensures 'A' <= c <= 'Z' ==> 'a' <= r <= 'z' && r as int - 'a' as int == c as int - 'A' as int
    ensures !('A' <= c <= 'Z') ==> r == c
  {
    if 'A' <= c <= 'Z' then (c as int + 32) as char else c
  }

  /** ASCII `s.lower()`. */
  function Lower(s: string): (r: string)
    ensures |r| == |s|
    ensures forall i :: 0 <= i < |s| ==> r[i] == ToLower(s[i])
  {
    if s == [] then [] else [ToLower(s[0])] + Lower(s[1..])
  }

  /** Lowercasing commutes with `strip()`: it never turns a space into a non-space or back. */
  lemma {:induction false} StripLower(s: string)
    ensures Strip(Lower(s)) == Lower(Strip(s))
    decreases |s|
  {
    var l := Lower(s);
    if |s| > 0 && IsSpace(s[0]) {
      assert l[1..] == Lower(s[1..]);
      StripLower(s[1..]);
    } else if |s| > 0 && IsSpace(s[|s| - 1]) {
      assert l[..|s| - 1] == Lower(s[..|s| - 1]);
      StripLower(s[..|s| - 1]);
    }
  }

  /** Lowercasing turns hex digits into lowercase hex digits of the same value. */
  lemma LowerHexDigits(s: string)
    requires AllHexDigits(s)
    ensures AllLowerHexDigits(Lower(s))
    ensures forall i :: 0 <= i < |s| ==> HexValue(Lower(s)[i]) == HexValue(s[i])
  {
  }

  /** A string without uppercase ASCII letters is its own lowercase form. */
  lemma LowerUnchanged(s: string)
    requires forall i :: 0 <= i < |s| ==> !('A' <= s[i] <= 'Z')
    ensures Lower(s) == s
  {
  }

  /** The value of a non-empty run of hex digits, most significant first. */
  function DigitsValue(d: string): (v: nat)
    requires AllHexDigits(d)
    decreases |d|
  {
    if d == [] then 0 else 16 * DigitsValue(d[..|d| - 1]) + HexValue(d[|d| - 1])
  }

  /**
   * A character `repr` writes unescaped: printable ASCII, and every character above
   * U+00A0 except the soft hyphen U+00AD.
   */
  predicate ReprPlain(c: char) {
    (' ' <= c <= '~' && c != '\\') || ('\U{a0}' < c && c != '\U{ad}')
  }

  /** One character of `repr(s)` between quotes `quote`. */
  function ReprChar(c: char, quote: char): (r: string)
    ensures ReprPlain(c) && c != quote ==> r == [c]
    ensures |r| >= 1
  {
    if c == quote || c == '\\' then ['\\', c]
    else if c == '\t' then "\\t"
    else if c == '\n' then "\\n"
    else if c == '\r' then "\\r"
    else if c < ' ' || '~' < c <= '\U{a0}' || c == '\U{ad}' then "\\x" + HexByte(c as int)
    else [c]
  }

  /** The characters of `repr(s)` between its quotes. */
  function ReprBody(s: string, quote: char): (r: string)
    ensures |r| >= |s|
  {
    if s == [] then [] else ReprBody(s[..|s| - 1], quote) + ReprChar(s[|s| - 1], quote)
  }

  /**
   * `repr(s)` of a Python string: double quotes when `s` holds a `'` and no `"`,
   * single quotes otherwise.
   */
  function PyRepr(s: string): (r: string)
    ensures |r| >= |s| + 2 && r[0] == r[|r| - 1] && (r[0] == '\'' || r[0] == '"')
    ensures r[0] == '"' <==> '\'' in s && '"' !in s
  {
    var quote := if '\'' in s && '"' !in s then '"' else '\'';
    [quote] + ReprBody(s, quote) + [quote]
  }

  /** A run of plain characters without the quote is its own `repr` body. */
  lemma {:induction false} ReprBodyOfPlain(s: string, quote: char)
    requires forall i :: 0 <= i < |s| ==> ReprPlain(s[i]) && s[i] != quote
    ensures ReprBody(s, quote) == s
  {
    if s != [] {
      ReprBodyOfPlain(s[..|s| - 1], quote);
      assert s == s[..|s| - 1] + [s[|s| - 1]];
    }
  }

  /** `repr` of a string of plain characters without quotes is the string in single quotes. */
  lemma PyReprOfPlain(s: string)
    requires forall i :: 0 <= i < |s| ==> ReprPlain(s[i]) && s[i] != '\'' && s[i] != '"'
    ensures PyRepr(s) == "'" + s + "'"
  {
    ReprBodyOfPlain(s, '\'');
  }

  /** `repr("\t#")` escapes the tab: `'\t#'`. */
  lemma PyReprOfTabHash()
    ensures PyRepr("\t#") == "'\\t#'"
  {
    assert "\t#"[..1] == "\t";
    assert ReprBody("\t", '\'') == "\\t";
  }

  /** `repr("'a")` switches to double quotes: `"'a"`. */
  lemma PyReprOfQuoteLetter()
    ensures PyRepr("'a") == "\"'a\""
  {
    assert "'a"[..1] == "'";
    assert ReprBody("'", '"') == "'";
  }

  /** The message of the `ValueError` that `int(t, 16)` raises quotes `repr(t)`. */
  function IntLiteralError(t: string): Exception {
    ValueError("invalid literal for int() with base 16: " + PyRepr(t))
  }

  /**
   * `int(t, 16)`: surrounding whitespace is ignored, one optional sign is allowed,
   * and at least one hex digit must follow it.
   */
  function PyInt16(t: string): (r: Result<int>)
    ensures r.Failure? ==> r.error == IntLiteralError(t)
  {
    var u := Strip(t);
    if |u| > 0 && (u[0] == '+' || u[0] == '-') then
      var d := u[1..];
      if |d| > 0 && AllHexDigits(d) then
        Success(if u[0] == '-' then -(DigitsValue(d) as int) else DigitsValue(d))
      else Failure(IntLiteralError(t))
    else if |u| > 0 && AllHexDigits(u) then Success(DigitsValue(u))
    else Failure(IntLiteralError(t))
  }

  /** `int("\t#", 16)` fails, and its message shows the tab escaped. */
  lemma PyInt16OfTabHash()
    ensures PyInt16("\t#") == Failure(ValueError("invalid literal for int() with base 16: '\\t#'"))
  {
    StripFront("\t#");
    assert "\t#"[1..] == "#";
    StripOfStripped("#");
    PyReprOfTabHash();
  }

  /** The value of one or two hex digits, written out. */
  lemma DigitsValueShort(d: string)
    requires 1 <= |d| <= 2 && AllHexDigits(d)
    ensures |d| == 1 ==> DigitsValue(d) == HexValue(d[0])
    ensures |d| == 2 ==> DigitsValue(d) == 16 * HexValue(d[0]) + HexValue(d[1])
  {
    assert d[..1][..0] == [];
    if |d| == 2 {
      assert d[..1] == [d[0]];
    }
  }

  /** `int(t, 16)` of exactly two hex digits is the byte they spell. */
  lemma PyInt16OfPair(t: string)
    requires |t| == 2 && AllHexDigits(t)
    ensures PyInt16(t) == Success(16 * HexValue(t[0]) + HexValue(t[1]))
    ensures 0 <= 16 * HexValue(t[0]) + HexValue(t[1]) < 256
  {
    assert !IsSpace(t[0]) && !IsSpace(t[1]);
    StripOfStripped(t);
    DigitsValueShort(t);
  }

  /** No character of `t` is a sign. */
  predicate Signless(t: string) {
    forall i :: 0 <= i < |t| ==> t[i] != '+' && t[i] != '-'
  }

  /** A slice of a string without signs has none either. */
  lemma SliceSignless(v: string, i: nat, j: nat)
    requires Signless(v)
    ensures Signless(Slice(v, i, j))
  {
    var p := Slice(v, i, j);
    forall k | 0 <= k < |p| ensures p[k] != '+' && p[k] != '-' {
      var lo := if i < |v| then i else |v|;
      assert p[k] == v[lo + k];
    }
  }

  /**
   * `int(t, 16)` of at most two characters none of which is a sign lies in [0, 255].
   */
  lemma PyInt16Bounded(t: string)
    requires |t| <= 2 && Signless(t)
    ensures PyInt16(t).Success? ==> 0 <= PyInt16(t).value < 256
  {
    var u := Strip(t);
    StripIsMiddle(t);
    if |u| > 0 && AllHexDigits(u) {
      DigitsValueShort(u);
    }
  }

  /** `"{:02x}".format(b)`: two lowercase hex digits. */
  function HexByte(b: Byte): (r: string)
    ensures |r| == 2 && AllLowerHexDigits(r)
    ensures 16 * HexValue(r[0]) + HexValue(r[1]) == b
  {
    [HexDigit(b / 16), HexDigit(b % 16)]
  }

  /** Formatting the byte two lowercase hex digits spell gives those digits back. */
  lemma HexByteOfPair(t: string)
    requires |t| == 2 && AllLowerHexDigits(t)
    ensures HexByte(16 * HexValue(t[0]) + HexValue(t[1])) == t
  {
    var v := 16 * HexValue(t[0]) + HexValue(t[1]);
    assert v / 16 == HexValue(t[0]) && v % 16 == HexValue(t[1]);
    HexDigitOfValue(t[0]);
    HexDigitOfValue(t[1]);
  }
}
