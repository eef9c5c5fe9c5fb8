/**
 * Hex colour strings: the validity pattern, normalisation to `#rrggbb` and parsing
 * into three 8-bit channels (scripts/color_hex.py).
 */
module ColorHex {
  import opened Common
  import opened PyText

  /** Three or six hex digits of either case. */
  predicate ShortOrLongDigits(d: string) {
    (|d| == 3 || |d| == 6) && AllHexDigits(d)
  }

  /**
   * `HEX_PATTERN.fullmatch(t)` for `^#?([0-9a-fA-F]{3}|[0-9a-fA-F]{6})$`: the whole of `t`
   * is the digits alone or a `#` followed by them.
   */
  predicate MatchesHexPattern(t: string) {
    ShortOrLongDigits(t) || (|t| > 0 && t[0] == '#' && ShortOrLongDigits(t[1..]))
  }

  /** `is_valid_hex`: the pattern is matched against the stripped input. */
  predicate IsValidHex(s: string) {
    MatchesHexPattern(Strip(s))
  }

  /** `#` followed by six lowercase hex digits. */
  predicate IsCanonicalHex(h: string) {
    |h| == 7 && h[0] == '#' && AllLowerHexDigits(h[1..])
  }

  /** The string with at most one leading `#` removed. */
  function DropOneHash(t: string): (r: string)
    ensures |r| <= |t|
  {
    if |t| > 0 && t[0] == '#' then t[1..] else t
  }

  /**
   * `is_valid_hex` holds exactly when the stripped input, less one optional leading `#`,
   * is three or six hex digits of either case.
   */
  lemma IsValidHexIff(s: string)
    ensures IsValidHex(s) <==> ShortOrLongDigits(DropOneHash(Strip(s)))
  {
    var t := Strip(s);
    if |t| > 0 && t[0] == '#' {
      assert !IsHexDigit(t[0]);
      assert !ShortOrLongDigits(t);
    }
  }

  /** Without surrounding whitespace, is_valid_hex is the bare pattern match. */
  lemma IsValidHexUnpadded(s: string)
    requires s == [] || (!IsSpace(s[0]) && !IsSpace(s[|s| - 1]))
    ensures IsValidHex(s) == MatchesHexPattern(s)
  {
    StripOfStripped(s);
  }

  /** The valid samples of color_hex.py's demonstration block. */
  lemma IsValidHexAcceptsSamples()
    ensures IsValidHex("#abc") && IsValidHex("abc")
    ensures IsValidHex("#A1B2C3") && IsValidHex("A1B2C3")
  {
    IsValidHexUnpadded("#abc");
    IsValidHexUnpadded("abc");
    IsValidHexUnpadded("#A1B2C3");
    IsValidHexUnpadded("A1B2C3");
    assert "#abc"[1..] == "abc";
    assert "#A1B2C3"[1..] == "A1B2C3";
  }

  /** The rejected samples: a non-hex digit, five digits, and a doubled `#`. */
  lemma IsValidHexRejectsSamples()
    ensures !IsValidHex("#12FG34") && !IsValidHex("12345") && !IsValidHex("##abc")
  {
    IsValidHexUnpadded("#12FG34");
    IsValidHexUnpadded("12345");
    IsValidHexUnpadded("##abc");
    assert "#12FG34"[1..][3] == 'G';
    assert "##abc"[1..][0] == '#';
  }

  /** The message normalize_hex raises with; it quotes the original argument. */
  function InvalidHex(s: string): Exception {
    ValueError("Invalid hex color: " + s)
  }

  /** `"".join(ch * 2 for ch in v)`: every character doubled, in order. */
  function DoubleDigits(v: string): (r: string)
    ensures |r| == 2 * |v|
    ensures forall k :: 0 <= k < |r| ==> r[k] == v[k / 2]
  {
    if v == [] then [] else [v[0], v[0]] + DoubleDigits(v[1..])
  }

  /** The remainder normalize_hex lowercases: three characters are doubled, others kept. */
  function Expand(value: string): (r: string)
    ensures ShortOrLongDigits(value) ==> |r| == 6 && AllHexDigits(r)
  {
    if |value| == 3 then
      var d := DoubleDigits(value);
      assert forall i :: 0 <= i < |d| ==> d[i] == value[i / 2];
      d
    else value
  }

  /**
   * `normalize_hex` as written: all leading `#` are removed from the stripped input,
   * the validity check is `is_valid_hex` of what is left (which strips it again), and
   * that remainder, not its stripped form, is expanded and lowercased.
   */
  function NormalizeHex(s: string): (r: Result<string>)
    ensures r.Failure? <==> !IsValidHex(LStripChar(Strip(s), '#'))
    ensures r.Failure? ==> r.error == InvalidHex(s)
    ensures r.Success? ==> |r.value| > 0 && r.value[0] == '#'
  {
    var value := LStripChar(Strip(s), '#');
    if !IsValidHex(value) then Failure(InvalidHex(s))
    else Success("#" + Lower(Expand(value)))
  }

  /** `#` followed by the lowercase form of six hex digits is canonical. */
  lemma CanonicalOfDigits(v: string)
    requires |v| == 6 && AllHexDigits(v)
    ensures IsCanonicalHex("#" + Lower(v))
  {
    LowerHexDigits(v);
    assert ("#" + Lower(v))[1..] == Lower(v);
  }

  /**
   * normalize_hex of `#` followed by `w` sees `w` as the remainder when `w` starts with
   * something other than `#` and ends with something other than whitespace.
   */
  lemma RemainderAfterHash(w: string)
    requires w != [] && w[0] != '#' && !IsSpace(w[|w| - 1])
    ensures LStripChar(Strip("#" + w), '#') == w
  {
    var o := "#" + w;
    StripOfStripped(o);
    assert o[1..] == w;
  }

  /** A valid input normalises to `#` and six lowercase hex digits: its own, or its three doubled. */
  lemma NormalizeHexOfValid(s: string)
    requires IsValidHex(s)
    ensures NormalizeHex(s) == Success("#" + Lower(Expand(DropOneHash(Strip(s)))))
    ensures IsCanonicalHex(NormalizeHex(s).value)
  {
    var t := Strip(s);
    var d := DropOneHash(t);
    IsValidHexIff(s);
    assert d[0] != '#' by {
      assert IsHexDigit(d[0]);
    }
    assert LStripChar(t, '#') == d by {
      if t[0] == '#' {
        assert t[1..] == d;
      }
    }
    assert IsValidHex(d) by {
      StripOfStripped(d);
    }
    CanonicalOfDigits(Expand(d));
  }

  /** The digits of a canonical colour are hex digits. */
  lemma CanonicalDigits(h: string)
    requires IsCanonicalHex(h)
    ensures AllHexDigits(h[1..])
  {
    forall i | 0 <= i < |h[1..]| ensures IsHexDigit(h[1..][i]) {
      assert IsLowerHexDigit(h[1..][i]);
    }
  }

  /** normalize_hex leaves a canonical colour unchanged. */
  lemma NormalizeCanonical(h: string)
    requires IsCanonicalHex(h)
    ensures NormalizeHex(h) == Success(h)
  {
    var w := h[1..];
    CanonicalDigits(h);
    assert h == "#" + w;
    assert IsLowerHexDigit(w[0]) && IsLowerHexDigit(w[5]);
    RemainderAfterHash(w);
    assert IsValidHex(w) by {
      StripOfStripped(w);
    }
    LowerUnchanged(w);
  }

  /** Three lowercase digits are valid on their own, and their expansion doubles each one. */
  lemma ShortDigits(a: char, b: char, c: char)
    requires IsLowerHexDigit(a) && IsLowerHexDigit(b) && IsLowerHexDigit(c)
    ensures IsValidHex([a, b, c])
    ensures LStripChar(Strip([a, b, c]), '#') == [a, b, c]
    ensures Lower(Expand([a, b, c])) == [a, a, b, b, c, c]
  {
    var v := [a, b, c];
    StripOfStripped(v);
    assert DoubleDigits(v) == [a, a, b, b, c, c];
    LowerUnchanged([a, a, b, b, c, c]);
  }

  /** Three lowercase digits expand by doubling each one. */
  lemma NormalizeShort(a: char, b: char, c: char)
    requires IsLowerHexDigit(a) && IsLowerHexDigit(b) && IsLowerHexDigit(c)
    ensures NormalizeHex([a, b, c]) == Success(['#', a, a, b, b, c, c])
  {
    ShortDigits(a, b, c);
    assert "#" + [a, a, b, b, c, c] == ['#', a, a, b, b, c, c];
  }

  /** Any number of `#`s in front of the three digits is removed before the check. */
  lemma NormalizeHashesShort(k: nat, a: char, b: char, c: char)
    requires IsLowerHexDigit(a) && IsLowerHexDigit(b) && IsLowerHexDigit(c)
    ensures NormalizeHex(seq(k, _ => '#') + [a, b, c]) == Success(['#', a, a, b, b, c, c])
  {
    var s := seq(k, _ => '#') + [a, b, c];
    HashesEnds(k, [a, b, c]);
    StripOfStripped(s);
    HashesRemoved(k, [a, b, c]);
    NormalizeShort(a, b, c);
    ShortDigits(a, b, c);
  }

  /** `#`s in front of a string that ends in a non-space leave no space at either end. */
  lemma HashesEnds(k: nat, w: string)
    requires w != [] && !IsSpace(w[0]) && !IsSpace(w[|w| - 1])
    ensures var s := seq(k, _ => '#') + w;
      !IsSpace(s[0]) && !IsSpace(s[|s| - 1])
  {
  }

  /** `lstrip("#")` removes exactly the leading `#`s in front of a string that starts otherwise. */
  lemma {:induction false} HashesRemoved(k: nat, w: string)
    requires w != [] && w[0] != '#'
    ensures LStripChar(seq(k, _ => '#') + w, '#') == w
  {
    if k > 0 {
      var s := seq(k, _ => '#') + w;
      assert s[1..] == seq(k - 1, _ => '#') + w;
      HashesRemoved(k - 1, w);
    } else {
      assert seq(k, _ => '#') + w == w;
    }
  }

  /** The shorthand sample `"#abc"` expands to `"#aabbcc"`. */
  lemma NormalizeHexExpandsShorthand()
    ensures NormalizeHex("#abc") == Success("#aabbcc")
  {
    NormalizeHashesShort(1, 'a', 'b', 'c');
    assert seq(1, _ => '#') + "abc" == "#abc";
  }

  /** The shorthand sample `"abc"` expands to `"#aabbcc"` too. */
  lemma NormalizeHexExpandsBareShorthand()
    ensures NormalizeHex("abc") == Success("#aabbcc")
  {
    NormalizeShort('a', 'b', 'c');
  }

  /** `is_valid_hex` allows one optional `#`, so `"##abc"` is rejected. */
  lemma DoubleHashInvalid()
    ensures !IsValidHex("##abc")
  {
    IsValidHexUnpadded("##abc");
    assert "##abc"[1..][0] == '#';
  }

  /**
   * Every leading `#` is removed before the check, so `"##abc"` normalises although
   * `is_valid_hex("##abc")` is false.
   */
  lemma NormalizeHexStripsEveryHash()
    ensures !IsValidHex("##abc")
    ensures NormalizeHex("##abc") == Success("#aabbcc")
  {
    DoubleHashInvalid();
    NormalizeHashesShort(2, 'a', 'b', 'c');
    assert seq(2, _ => '#') + "abc" == "##abc";
  }

  /** `#`, a space and the digits is no match of the pattern, so is_valid_hex rejects it. */
  lemma InnerSpaceIsInvalid(w: string)
    requires w != [] && !IsSpace(w[|w| - 1])
    ensures !IsValidHex("# " + w)
  {
    var s := "# " + w;
    IsValidHexUnpadded(s);
    assert s[1..][0] == ' ';
  }

  /** `#`, a space and a string ending in a non-space is its own `strip()`. */
  lemma InnerSpaceUnstripped(w: string)
    requires w != [] && !IsSpace(w[|w| - 1])
    ensures Strip("# " + w) == "# " + w
  {
    var s := "# " + w;
    assert s[0] == '#' && s[|s| - 1] == w[|w| - 1];
    StripOfStripped(s);
  }

  /** `lstrip("#")` stops at the space. */
  lemma InnerSpaceHashRemoved(w: string)
    ensures LStripChar("# " + w, '#') == " " + w
  {
    var s := "# " + w;
    assert s[0] == '#' && s[1] == ' ';
    LStripCharOnce(s, '#');
    assert s[1..] == " " + w;
  }

  /** After the `#` is removed, the space is still there. */
  lemma InnerSpaceRemainder(w: string)
    requires w != [] && !IsSpace(w[|w| - 1])
    ensures LStripChar(Strip("# " + w), '#') == " " + w
  {
    InnerSpaceUnstripped(w);
    InnerSpaceHashRemoved(w);
  }

  /** The check strips the space again. */
  lemma InnerSpaceStripped(w: string)
    requires w != [] && !IsSpace(w[0]) && !IsSpace(w[|w| - 1])
    ensures Strip(" " + w) == w
  {
    StripOfOneLeadingSpace(' ', w);
    assert [' '] + w == " " + w;
  }

  /**
   * Whitespace between the `#` and three or six lowercase digits passes the check (which
   * strips it) and is kept in the result: normalize_hex returns such an input unchanged,
   * although is_valid_hex rejects it.
   */
  lemma NormalizeHexKeepsInnerSpace(w: string)
    requires ShortOrLongDigits(w) && AllLowerHexDigits(w)
    ensures !IsValidHex("# " + w)
    ensures NormalizeHex("# " + w) == Success("# " + w)
  {
    assert !IsSpace(w[0]) && !IsSpace(w[|w| - 1]);
    InnerSpaceIsInvalid(w);
    InnerSpaceRemainder(w);
    InnerSpaceStripped(w);
    assert IsValidHex(" " + w);
    InnerSpaceKept(w);
  }

  /** The space and the lowercase digits are neither doubled nor changed by lowering. */
  lemma InnerSpaceKept(w: string)
    requires ShortOrLongDigits(w) && AllLowerHexDigits(w)
    ensures "#" + Lower(Expand(" " + w)) == "# " + w
  {
    var v := " " + w;
    assert Expand(v) == v;
    assert forall i :: 0 <= i < |v| ==> !('A' <= v[i] <= 'Z') by {
      forall i | 0 <= i < |v| ensures !('A' <= v[i] <= 'Z') {
        if i > 0 {
          assert v[i] == w[i - 1] && IsLowerHexDigit(w[i - 1]);
        }
      }
    }
    LowerUnchanged(v);
    assert "#" + v == "# " + w;
  }

  /**
   * The remainder normalize_hex checks, when valid, has at least three characters, does not
   * start with `#` and ends where the stripped input ends.
   */
  lemma RemainderEnds(t: string)
    requires t == [] || !IsSpace(t[|t| - 1])
    requires IsValidHex(LStripChar(t, '#'))
    ensures var value := LStripChar(t, '#');
      |value| >= 3 && value[0] != '#' && !IsSpace(value[|value| - 1])
  {
    RemainderLength(t);
    RemainderLast(t);
  }

  /** A valid remainder after `lstrip("#")` has at least three characters. */
  lemma RemainderLength(t: string)
    requires IsValidHex(LStripChar(t, '#'))
    ensures |LStripChar(t, '#')| >= 3
  {
    ValidLength(LStripChar(t, '#'));
  }

  /** The remainder after `lstrip("#")` ends with the last character of the input. */
  lemma RemainderLast(t: string)
    requires |LStripChar(t, '#')| >= 3
    ensures var value := LStripChar(t, '#'); value[|value| - 1] == t[|t| - 1]
  {
    SuffixLast(t, LStripChar(t, '#'));
  }

  /** A string is_valid_hex accepts has at least three characters. */
  lemma ValidLength(v: string)
    requires IsValidHex(v)
    ensures |v| >= 3
  {
    assert |Strip(v)| >= 3;
  }

  /** A non-empty suffix ends with the last character of the whole. */
  lemma SuffixLast(t: string, v: string)
    requires 0 < |v| <= |t| && v == t[|t| - |v|..]
    ensures v[|v| - 1] == t[|t| - 1]
  {
  }

  /** A valid remainder of three characters is three hex digits. */
  lemma ThreeCharRemainder(value: string)
    requires IsValidHex(value) && |value| == 3 && value[0] != '#'
    ensures AllHexDigits(value)
  {
    StripIsMiddle(value);
    assert Strip(value) == value;
  }

  /** Lowercasing keeps a string a match of the pattern. */
  lemma PatternLower(t: string)
    requires MatchesHexPattern(t)
    ensures MatchesHexPattern(Lower(t))
  {
    if !ShortOrLongDigits(t) {
      assert Lower(t)[1..] == Lower(t[1..]);
      LowerHexDigits(t[1..]);
    } else {
      LowerHexDigits(t);
    }
  }

  /** ASCII lowercasing is idempotent. */
  lemma LowerTwice(s: string)
    ensures Lower(Lower(s)) == Lower(s)
  {
  }

  /** A remainder other than three characters is lowercased as is, and stays valid. */
  lemma LongRemainderIdempotent(value: string)
    requires IsValidHex(value) && |value| != 3
    requires value != [] && value[0] != '#' && !IsSpace(value[|value| - 1])
    ensures NormalizeHex("#" + Lower(value)) == Success("#" + Lower(value))
  {
    var w := Lower(value);
    RemainderAfterHash(w);
    StripLower(value);
    PatternLower(Strip(value));
    LowerTwice(value);
  }

  /** A remainder of three characters is doubled into a canonical colour, which stays as it is. */
  lemma ShortRemainderIdempotent(value: string)
    requires IsValidHex(value) && |value| == 3 && value[0] != '#'
    ensures NormalizeHex("#" + Lower(Expand(value))) == Success("#" + Lower(Expand(value)))
  {
    ThreeCharRemainder(value);
    CanonicalOfDigits(Expand(value));
    NormalizeCanonical("#" + Lower(Expand(value)));
  }

  /** normalize_hex is idempotent on every input it accepts. */
  lemma NormalizeHexIdempotent(s: string)
    requires NormalizeHex(s).Success?
    ensures NormalizeHex(NormalizeHex(s).value) == NormalizeHex(s)
  {
    var value := LStripChar(Strip(s), '#');
    assert NormalizeHex(s).value == "#" + Lower(Expand(value));
    RemainderEnds(Strip(s));
    if |value| == 3 {
      ShortRemainderIdempotent(value);
    } else {
      LongRemainderIdempotent(value);
    }
  }

  /** The tuple of three integers `hex_to_rgb` returns. */
  datatype Channels = Channels(r: int, g: int, b: int)

  predicate InByteRange(c: Channels) {
    0 <= c.r < 256 && 0 <= c.g < 256 && 0 <= c.b < 256
  }

  /** `"#%02x%02x%02x" % (r, g, b)`. */
  function FormatRgb(c: Channels): (h: string)
    requires InByteRange(c)
    ensures IsCanonicalHex(h)
  {
    var h := "#" + HexByte(c.r) + HexByte(c.g) + HexByte(c.b);
    assert h[1..] == HexByte(c.r) + HexByte(c.g) + HexByte(c.b);
    h
  }

  /** The first exception of three parses, in order, or the three values. */
  function FirstFailure(r8: Result<int>, g8: Result<int>, b8: Result<int>): (r: Result<Channels>)
    ensures r.Success? <==> r8.Success? && g8.Success? && b8.Success?
    ensures r.Success? ==> r.value == Channels(r8.value, g8.value, b8.value)
    ensures r.Failure? ==>
      r.error == (if r8.Failure? then r8.error else if g8.Failure? then g8.error else b8.error)
  {
    match r8
    case Failure(e) => Failure(e)
    case Success(r) =>
      match g8
      case Failure(e) => Failure(e)
      case Success(g) =>
        match b8
        case Failure(e) => Failure(e)
        case Success(b) => Success(Channels(r, g, b))
  }

  /**
   * `int(v[i:i + 2], 16)` for i = 0, 2, 4, evaluated in that order: the first parse that
   * raises ends the call.
   */
  function ParsePairs(v: string): Result<Channels> {
    FirstFailure(PyInt16(Slice(v, 0, 2)), PyInt16(Slice(v, 2, 4)), PyInt16(Slice(v, 4, 6)))
  }

  /** `hex_to_rgb` as written: it parses whatever normalize_hex returned, less its `#`. */
  function HexToRgb(s: string): (r: Result<Channels>)
    ensures NormalizeHex(s).Failure? ==> r == Failure(NormalizeHex(s).error)
  {
    match NormalizeHex(s)
    case Failure(e) => Failure(e)
    case Success(n) => ParsePairs(n[1..])
  }

  /** A character normalize_hex may return: `#`, whitespace or a hex digit. */
  predicate NormalChar(c: char) {
    c == '#' || IsSpace(c) || IsHexDigit(c)
  }

  /** Every character of a remainder that passes the check is `#`, whitespace or a hex digit. */
  lemma RemainderChars(value: string)
    requires IsValidHex(value)
    ensures forall i :: 0 <= i < |value| ==> NormalChar(value[i])
  {
    var c := Strip(value);
    var k := LeadingSpaces(value);
    StripIsMiddle(value);
    StripRemovesTrailing(value);
    forall i | 0 <= i < |value| ensures NormalChar(value[i]) {
      if i < k {
        assert value[i] == value[..k][i];
      } else if i < k + |c| {
        assert value[i] == c[i - k];
        if !ShortOrLongDigits(c) && i > k {
          assert c[i - k] == c[1..][i - k - 1];
        }
      } else {
        assert value[i] == value[k + |c|..][i - k - |c|];
      }
    }
  }

  /** Every character normalize_hex returns is `#`, whitespace or a hex digit. */
  lemma NormalizedChars(s: string)
    requires NormalizeHex(s).Success?
    ensures var n := NormalizeHex(s).value;
      forall i :: 0 <= i < |n| ==> NormalChar(n[i])
  {
    var value := LStripChar(Strip(s), '#');
    RemainderChars(value);
    ExpandChars(value);
    LowerNormal(Expand(value));
    assert NormalizeHex(s).value == "#" + Lower(Expand(value));
  }

  /** Lowercasing, and putting a `#` in front, keep every character normal. */
  lemma LowerNormal(v: string)
    requires forall i :: 0 <= i < |v| ==> NormalChar(v[i])
    ensures var n := "#" + Lower(v);
      forall i :: 0 <= i < |n| ==> NormalChar(n[i])
  {
    var n := "#" + Lower(v);
    forall i | 0 <= i < |n| ensures NormalChar(n[i]) {
      if i > 0 {
        assert n[i] == ToLower(v[i - 1]);
      }
    }
  }

  /** Expansion only repeats characters, so it keeps every character normal. */
  lemma ExpandChars(value: string)
    requires forall i :: 0 <= i < |value| ==> NormalChar(value[i])
    ensures var v := Expand(value);
      forall i :: 0 <= i < |v| ==> NormalChar(v[i])
  {
    var v := Expand(value);
    if |value| == 3 {
      assert forall i :: 0 <= i < |v| ==> v[i] == value[i / 2];
    }
  }

  /** Every channel hex_to_rgb returns lies in [0, 255]. */
  lemma HexToRgbInByteRange(s: string)
    requires HexToRgb(s).Success?
    ensures InByteRange(HexToRgb(s).value)
  {
    var n := NormalizeHex(s).value;
    NormalizedChars(s);
    var v := n[1..];
    assert Signless(v) by {
      forall k | 0 <= k < |v| ensures v[k] != '+' && v[k] != '-' {
        assert v[k] == n[k + 1];
        assert NormalChar(n[k + 1]);
      }
    }
    SliceSignless(v, 0, 2);
    SliceSignless(v, 2, 4);
    SliceSignless(v, 4, 6);
    PyInt16Bounded(Slice(v, 0, 2));
    PyInt16Bounded(Slice(v, 2, 4));
    PyInt16Bounded(Slice(v, 4, 6));
  }

  /** The digit pair at position `i` of `v` reads as the byte it spells. */
  lemma PairAt(v: string, i: nat)
    requires i + 2 <= |v| && IsHexDigit(v[i]) && IsHexDigit(v[i + 1])
    ensures PyInt16(Slice(v, i, i + 2)) == Success(16 * HexValue(v[i]) + HexValue(v[i + 1]))
  {
    assert Slice(v, i, i + 2) == [v[i], v[i + 1]];
    PyInt16OfPair([v[i], v[i + 1]]);
  }

  /** The first pair, `v[0:2]`. */
  lemma PairZero(v: string)
    requires |v| >= 2 && IsHexDigit(v[0]) && IsHexDigit(v[1])
    ensures PyInt16(Slice(v, 0, 2)) == Success(16 * HexValue(v[0]) + HexValue(v[1]))
  {
    PairAt(v, 0);
  }

  /** The second pair, `v[2:4]`. */
  lemma PairTwo(v: string)
    requires |v| >= 4 && IsHexDigit(v[2]) && IsHexDigit(v[3])
    ensures PyInt16(Slice(v, 2, 4)) == Success(16 * HexValue(v[2]) + HexValue(v[3]))
  {
    PairAt(v, 2);
  }

  /** The third pair, `v[4:6]`. */
  lemma PairFour(v: string)
    requires |v| >= 6 && IsHexDigit(v[4]) && IsHexDigit(v[5])
    ensures PyInt16(Slice(v, 4, 6)) == Success(16 * HexValue(v[4]) + HexValue(v[5]))
  {
    PairAt(v, 4);
  }

  /** The channels of six hex digits are the values of their three pairs. */
  lemma ParseSix(v: string)
    requires |v| == 6 && AllHexDigits(v)
    ensures ParsePairs(v) == Success(Channels(
      16 * HexValue(v[0]) + HexValue(v[1]),
      16 * HexValue(v[2]) + HexValue(v[3]),
      16 * HexValue(v[4]) + HexValue(v[5])))
  {
    PairZero(v);
    PairTwo(v);
    PairFour(v);
  }

  /** The channels of `#` and six hex digits are the values of its three digit pairs. */
  lemma ParseCanonical(h: string)
    requires |h| == 7 && AllHexDigits(h[1..])
    ensures ParsePairs(h[1..]) == Success(Channels(
      16 * HexValue(h[1]) + HexValue(h[2]),
      16 * HexValue(h[3]) + HexValue(h[4]),
      16 * HexValue(h[5]) + HexValue(h[6])))
  {
    var v := h[1..];
    ParseSix(v);
    assert v[0] == h[1] && v[1] == h[2] && v[2] == h[3];
    assert v[3] == h[4] && v[4] == h[5] && v[5] == h[6];
  }

  /** The three digit pairs of a canonical colour format back to the colour. */
  lemma FormatCanonicalPairs(h: string)
    requires IsCanonicalHex(h)
    ensures InByteRange(Channels(
      16 * HexValue(h[1]) + HexValue(h[2]),
      16 * HexValue(h[3]) + HexValue(h[4]),
      16 * HexValue(h[5]) + HexValue(h[6])))
    ensures FormatRgb(Channels(
      16 * HexValue(h[1]) + HexValue(h[2]),
      16 * HexValue(h[3]) + HexValue(h[4]),
      16 * HexValue(h[5]) + HexValue(h[6]))) == h
  {
    var v := h[1..];
    assert IsLowerHexDigit(v[0]) && IsLowerHexDigit(v[1]) && IsLowerHexDigit(v[2]);
    assert IsLowerHexDigit(v[3]) && IsLowerHexDigit(v[4]) && IsLowerHexDigit(v[5]);
    HexByteOfPair([h[1], h[2]]);
    HexByteOfPair([h[3], h[4]]);
    HexByteOfPair([h[5], h[6]]);
    assert h == "#" + [h[1], h[2]] + [h[3], h[4]] + [h[5], h[6]];
  }

  /** Parsing a canonical colour and formatting the channels back gives the colour again. */
  lemma FormatParsedCanonical(h: string)
    requires IsCanonicalHex(h)
    ensures ParsePairs(h[1..]).Success? && InByteRange(ParsePairs(h[1..]).value)
    ensures FormatRgb(ParsePairs(h[1..]).value) == h
  {
    CanonicalDigits(h);
    ParseCanonical(h);
    FormatCanonicalPairs(h);
  }

  /**
   * On a valid input, hex_to_rgb returns three bytes that format back to normalize_hex
   * of the input.
   */
  lemma HexToRgbRoundTrip(s: string)
    requires IsValidHex(s)
    ensures HexToRgb(s).Success? && InByteRange(HexToRgb(s).value)
    ensures FormatRgb(HexToRgb(s).value) == NormalizeHex(s).value
  {
    NormalizeHexOfValid(s);
    FormatParsedCanonical(NormalizeHex(s).value);
  }

  /** Parsing a formatted colour gives back its channels. */
  lemma HexToRgbOfFormat(c: Channels)
    requires InByteRange(c)
    ensures HexToRgb(FormatRgb(c)) == Success(c)
  {
    var h := FormatRgb(c);
    NormalizeCanonical(h);
    FormatParsedCanonical(h);
    FormatInjective(c, ParsePairs(h[1..]).value);
  }

  /** Different channels format to different colours. */
  lemma FormatInjective(c: Channels, d: Channels)
    requires InByteRange(c) && InByteRange(d) && FormatRgb(c) == FormatRgb(d)
    ensures c == d
  {
    FormattedPairs(c);
    FormattedPairs(d);
  }

  /** The digit pairs of a formatted colour spell its channels. */
  lemma FormattedPairs(c: Channels)
    requires InByteRange(c)
    ensures var h := FormatRgb(c);
      16 * HexValue(h[1]) + HexValue(h[2]) == c.r
      && 16 * HexValue(h[3]) + HexValue(h[4]) == c.g
      && 16 * HexValue(h[5]) + HexValue(h[6]) == c.b
  {
    var h := FormatRgb(c);
    var a, b, d := HexByte(c.r), HexByte(c.g), HexByte(c.b);
    assert h == "#" + a + b + d;
    assert h[1] == a[0] && h[2] == a[1] && h[3] == b[0];
    assert h[4] == b[1] && h[5] == d[0] && h[6] == d[1];
  }

  /** The pairs of a space and six digits are the space with the first digit, then two pairs. */
  lemma ParsePairsShifted(w: string)
    requires |w| == 6 && AllHexDigits(w)
    ensures ParsePairs(" " + w) == Success(Channels(
      HexValue(w[0]),
      16 * HexValue(w[1]) + HexValue(w[2]),
      16 * HexValue(w[3]) + HexValue(w[4])))
  {
    var v := " " + w;
    assert Slice(v, 0, 2) == [' ', w[0]];
    PyInt16OfSpaceDigit(w[0]);
    assert v[2] == w[1] && v[3] == w[2] && v[4] == w[3] && v[5] == w[4];
    PairTwo(v);
    PairFour(v);
  }

  /** `int(" " + c, 16)` ignores the space and reads the single digit. */
  lemma PyInt16OfSpaceDigit(c: char)
    requires IsHexDigit(c)
    ensures PyInt16([' ', c]) == Success(HexValue(c))
  {
    StripOfOneLeadingSpace(' ', [c]);
    assert [' '] + [c] == [' ', c];
    DigitsValueShort([c]);
  }

  /**
   * The round trip fails for `#`, a space and six digits, which normalize_hex accepts but
   * is_valid_hex does not: the space is parsed as part of the first pair, so the channels
   * are shifted by one digit, the last digit is lost, and the colour they format to differs
   * from the normalised string.
   */
  lemma HexToRgbMisreadsInnerSpace(w: string)
    requires |w| == 6 && AllLowerHexDigits(w)
    ensures !IsValidHex("# " + w)
    ensures HexToRgb("# " + w) == Success(Channels(
      HexValue(w[0]),
      16 * HexValue(w[1]) + HexValue(w[2]),
      16 * HexValue(w[3]) + HexValue(w[4])))
    ensures InByteRange(HexToRgb("# " + w).value)
    ensures FormatRgb(HexToRgb("# " + w).value) != NormalizeHex("# " + w).value
  {
    assert AllHexDigits(w) by {
      forall i | 0 <= i < 6 ensures IsHexDigit(w[i]) { assert IsLowerHexDigit(w[i]); }
    }
    NormalizeHexKeepsInnerSpace(w);
    assert ("# " + w)[1..] == " " + w;
    ParsePairsShifted(w);
    var h := FormatRgb(HexToRgb("# " + w).value);
    assert IsLowerHexDigit(h[1]) by { assert h[1] == h[1..][0]; }
  }

  /** The instance `"# a1b2c3"`: the channels are (10, 27, 44). */
  lemma HexToRgbMisreadsSample()
    ensures !IsValidHex("# a1b2c3")
    ensures NormalizeHex("# a1b2c3") == Success("# a1b2c3")
    ensures HexToRgb("# a1b2c3") == Success(Channels(10, 27, 44))
  {
    var w := "a1b2c3";
    assert AllLowerHexDigits(w);
    assert "# " + w == "# a1b2c3";
    NormalizeHexKeepsInnerSpace(w);
    HexToRgbMisreadsInnerSpace(w);
    assert HexValue(w[0]) == 10;
    assert 16 * HexValue(w[1]) + HexValue(w[2]) == 27;
    assert 16 * HexValue(w[3]) + HexValue(w[4]) == 44;
  }

  /** The channels (10, 27, 44) format to `"#0a1b2c"`, not to the normalised `"# a1b2c3"`. */
  lemma FormatMisreadSample()
    ensures FormatRgb(Channels(10, 27, 44)) == "#0a1b2c"
  {
    assert HexByte(10) == "0a" && HexByte(27) == "1b" && HexByte(44) == "2c";
  }

  /**
   * normalize_hex with the check made on the value it returns: the remainder after the
   * leading `#`s must itself be three or six hex digits.
   */
  function NormalizeHexChecked(s: string): (r: Result<string>)
    ensures r.Failure? <==> !ShortOrLongDigits(LStripChar(Strip(s), '#'))
    ensures r.Failure? ==> r.error == InvalidHex(s)
  {
    var value := LStripChar(Strip(s), '#');
    if !ShortOrLongDigits(value) then Failure(InvalidHex(s))
    else Success("#" + Lower(Expand(value)))
  }

  /** hex_to_rgb over the checked normalisation. */
  function HexToRgbChecked(s: string): (r: Result<Channels>)
    ensures NormalizeHexChecked(s).Failure? ==> r == Failure(NormalizeHexChecked(s).error)
  {
    match NormalizeHexChecked(s)
    case Failure(e) => Failure(e)
    case Success(n) => ParsePairs(n[1..])
  }

  /**
   * The checked normalisation always yields a canonical colour and agrees with
   * normalize_hex wherever it succeeds.
   */
  lemma NormalizeHexCheckedCanonical(s: string)
    requires NormalizeHexChecked(s).Success?
    ensures IsCanonicalHex(NormalizeHexChecked(s).value)
    ensures NormalizeHex(s) == NormalizeHexChecked(s)
  {
    var value := LStripChar(Strip(s), '#');
    StripOfStripped(value);
    CanonicalOfDigits(Expand(value));
  }

  /** The checked normalisation accepts every input is_valid_hex accepts, with the same result. */
  lemma NormalizeHexCheckedOfValid(s: string)
    requires IsValidHex(s)
    ensures NormalizeHexChecked(s) == NormalizeHex(s)
  {
    NormalizeHexOfValid(s);
    IsValidHexIff(s);
    var t := Strip(s);
    var d := DropOneHash(t);
    assert d[0] != '#' by {
      assert IsHexDigit(d[0]);
    }
    assert LStripChar(t, '#') == d by {
      if t[0] == '#' {
        assert t[1..] == d;
      }
    }
  }

  /** The checked normalisation rejects the inputs the check on the stripped remainder let through. */
  lemma NormalizeHexCheckedRejectsInnerSpace(w: string)
    requires ShortOrLongDigits(w)
    ensures NormalizeHexChecked("# " + w) == Failure(InvalidHex("# " + w))
  {
    assert !IsSpace(w[|w| - 1]);
    InnerSpaceRemainder(w);
    assert (" " + w)[0] == ' ';
  }

  /**
   * With the check on the returned value, every accepted input round-trips: the channels
   * are bytes and format back to the normalised colour.
   */
  lemma HexToRgbCheckedRoundTrip(s: string)
    ensures HexToRgbChecked(s).Success? <==> NormalizeHexChecked(s).Success?
    ensures HexToRgbChecked(s).Success? ==>
      InByteRange(HexToRgbChecked(s).value)
      && FormatRgb(HexToRgbChecked(s).value) == NormalizeHexChecked(s).value
  {
    if NormalizeHexChecked(s).Success? {
      NormalizeHexCheckedCanonical(s);
      FormatParsedCanonical(NormalizeHexChecked(s).value);
    }
  }
}
