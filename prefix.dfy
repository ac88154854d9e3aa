/** The post-number prefix: a post's sequence number travels inside its
    external text as "#<n> <text>". This module holds the renderer, the strict
    decoder used by the reconciliation and cascade code (first whitespace token
    minus its '#', then the text after the first space), the looser decoder of
    the comment scanner (the first "#digits" anywhere), and the prefix strip of
    the edit operation. */
module PostPrefix {
  import opened Wrappers

  // ---------------------------------------------------------------------
  // Characters
  // ---------------------------------------------------------------------

  /** The characters Python's `str.split()` (no argument) splits on. */
  predicate IsSpace(c: char) {
    c == ' ' || ('\t' <= c <= '\r') || ('\U{1c}' <= c <= '\U{1f}')
    || c == '\U{85}' || c == '\U{a0}' || c == '\U{1680}'
    || ('\U{2000}' <= c <= '\U{200a}') || c == '\U{2028}' || c == '\U{2029}'
    || c == '\U{202f}' || c == '\U{205f}' || c == '\U{3000}'
  }

  predicate IsDigit(c: char) {
    '0' <= c <= '9'
  }

  function DigitValue(c: char): nat
    requires IsDigit(c)
  {
    (c as int) - ('0' as int)
  }

  function DigitChar(d: nat): (c: char)
    requires d < 10
    ensures IsDigit(c) && DigitValue(c) == d
  {
    (('0' as int) + d) as char
  }

  predicate AllDigits(s: string) {
    forall i :: 0 <= i < |s| ==> IsDigit(s[i])
  }

  // ---------------------------------------------------------------------
  // Decimal integers: f"{n}" and int(s)
  // ---------------------------------------------------------------------

  /** Value of a string of decimal digits (leading zeros allowed). */
  function DigitsValue(s: string): nat
    requires AllDigits(s)
  {
    if s == [] then 0 else DigitsValue(s[..|s| - 1]) * 10 + DigitValue(s[|s| - 1])
  }

  function NatToString(n: nat): (s: string)
    ensures |s| > 0 && AllDigits(s)
  {
    if n < 10 then [DigitChar(n)] else NatToString(n / 10) + [DigitChar(n % 10)]
  }

  /** Python's `str(n)` for an int: an optional '-' and the decimal digits. */
  function IntToString(n: int): (s: string)
    ensures |s| > 0
  {
    if n < 0 then "-" + NatToString(-n) else NatToString(n)
  }

  /** Python's `int(s)` on a string without surrounding whitespace: an
      optional sign followed by at least one decimal digit. */
  function ParseInt(s: string): Option<int>
  {
    if |s| > 0 && (s[0] == '-' || s[0] == '+') then
      if |s| > 1 && AllDigits(s[1..]) then
        var v: int := DigitsValue(s[1..]);
        Some(if s[0] == '-' then -v else v)
      else None
    else if |s| > 0 && AllDigits(s) then Some(DigitsValue(s))
    else None
  }

  /** Python's `int(s)` on any string: surrounding whitespace is ignored. */
  function ParseIntText(s: string): Option<int>
  {
    ParseInt(TrimEnd(TrimStart(s)))
  }

  function TrimStart(s: string): (r: string)
    ensures |r| <= |s| && r == s[|s| - |r|..]
    ensures r == [] || !IsSpace(r[0])
  {
    if s != [] && IsSpace(s[0]) then TrimStart(s[1..]) else s
  }

  function TrimEnd(s: string): (r: string)
    ensures |r| <= |s| && r == s[..|r|]
    ensures r == [] || !IsSpace(r[|r| - 1])
  {
    if s != [] && IsSpace(s[|s| - 1]) then TrimEnd(s[..|s| - 1]) else s
  }

  lemma {:induction false} DigitsOfNat(n: nat)
    ensures DigitsValue(NatToString(n)) == n
  {
    if n >= 10 {
      DigitsOfNat(n / 10);
      var s := NatToString(n);
      assert s[..|s| - 1] == NatToString(n / 10);
    }
  }

  /** Reading back a printed integer gives the integer. */
  lemma {:induction false} IntRoundTrip(n: int)
    ensures ParseInt(IntToString(n)) == Some(n)
  {
    if n < 0 {
      DigitsOfNat(-n);
      assert IntToString(n)[1..] == NatToString(-n);
    } else {
      DigitsOfNat(n);
    }
  }

  lemma {:induction false} IntToStringPlain(n: int)
    ensures forall i :: 0 <= i < |IntToString(n)| ==> !IsSpace(IntToString(n)[i]) && IntToString(n)[i] != '#'
  {
    var d := NatToString(if n < 0 then -n else n);
    assert AllDigits(d);
  }

  // ---------------------------------------------------------------------
  // The strict decoder (scheduled page, renumbering, hole-filling)
  // ---------------------------------------------------------------------

  /** The longest prefix of `s` that holds no whitespace: `s.split()[0]` when
      `s` does not start with whitespace. */
  function FirstToken(s: string): (t: string)
    ensures |t| <= |s| && t == s[..|t|]
    ensures forall i :: 0 <= i < |t| ==> !IsSpace(t[i])
    ensures |t| < |s| ==> IsSpace(s[|t|])
  {
    if s == [] || IsSpace(s[0]) then [] else [s[0]] + FirstToken(s[1..])
  }

  /** `s.split(' ', 1)[1] if ' ' in s else s`: the text after the first space. */
  function AfterFirstSpace(s: string): (r: string)
    ensures |r| <= |s|
  {
    if s == [] then s
    else if s[0] == ' ' then s[1..]
    else if ' ' in s[1..] then AfterFirstSpace(s[1..])
    else s
  }

  /** The number a message carries: it must start with '#', and its first
      whitespace-separated token minus the '#' must be an integer. */
  function ParseNumber(message: string): Option<int>
  {
    if |message| > 0 && message[0] == '#' then ParseInt(FirstToken(message)[1..])
    else None
  }

  /** A decoded post: its number (if any) and its text without the prefix.
      When no number decodes, the text is the whole message. */
  datatype Decoded = Decoded(number: Option<int>, text: string)

  function ParsePost(message: string): Decoded
  {
    match ParseNumber(message)
    case Some(n) => Decoded(Some(n), AfterFirstSpace(message))
    case None => Decoded(None, message)
  }

  /** The source tests post numbers with Python truthiness (`if post_num and
      ...`): a missing number and the number 0 both count as "no number". */
  predicate Numbered(n: Option<int>) {
    n.Some? && n.value != 0
  }

  // ---------------------------------------------------------------------
  // The renderer
  // ---------------------------------------------------------------------

  /** f"#{n} {text}". */
  function Render(n: int, text: string): string
  {
    "#" + IntToString(n) + " " + text
  }

  /** f"#{n}" when `n` may be None: Python prints None as "None". */
  function NumberText(n: Option<int>): string
  {
    match n
    case Some(v) => IntToString(v)
    case None => "None"
  }

  function RenderOptional(n: Option<int>, text: string): string
  {
    "#" + NumberText(n) + " " + text
  }

  lemma {:induction false} AfterFirstSpaceSkips(p: string, t: string)
    requires ' ' !in p
    ensures AfterFirstSpace(p + " " + t) == t
  {
    if p != [] {
      assert (p + " " + t)[1..] == p[1..] + " " + t;
      assert ' ' in (p + " " + t)[1..] by {
        assert (p + " " + t)[|p|] == ' ';
      }
      AfterFirstSpaceSkips(p[1..], t);
    }
  }

  lemma {:induction false} FirstTokenStops(p: string, t: string)
    requires forall i :: 0 <= i < |p| ==> !IsSpace(p[i])
    ensures FirstToken(p + " " + t) == p
  {
    if p != [] {
      assert (p + " " + t)[1..] == p[1..] + " " + t;
      FirstTokenStops(p[1..], t);
    }
  }

  /** Decoding a rendered post gives back its number and its text, for every
      integer and every text. */
  lemma {:induction false} RenderRoundTrip(n: int, text: string)
    ensures ParseNumber(Render(n, text)) == Some(n)
    ensures ParsePost(Render(n, text)) == Decoded(Some(n), text)
  {
    var p := "#" + IntToString(n);
    assert Render(n, text) == p + " " + text;
    IntToStringPlain(n);
    FirstTokenStops(p, text);
    assert FirstToken(Render(n, text))[1..] == IntToString(n);
    IntRoundTrip(n);
    assert ' ' !in p by {
      forall i | 0 <= i < |p| ensures p[i] != ' ' {
        if i > 0 { assert p[i] == IntToString(n)[i - 1]; }
      }
    }
    AfterFirstSpaceSkips(p, text);
  }

  /** Re-rendering a decoded message under another number keeps its text. */
  lemma {:induction false} RenumberKeepsText(message: string, k: int)
    ensures ParsePost(Render(k, ParsePost(message).text)).text == ParsePost(message).text
  {
    RenderRoundTrip(k, ParsePost(message).text);
  }

  // ---------------------------------------------------------------------
  // The edit operation's strip
  // ---------------------------------------------------------------------

  /** `edit_scheduled_post`'s strip: when the text starts with '#', drop
      everything up to and including the first space (if there is one). */
  function StripPrefix(text: string): string
  {
    if |text| > 0 && text[0] == '#' then AfterFirstSpace(text) else text
  }

  /** Stripping a rendered text gives the text that was rendered, whether the
      number was known or printed as "None". */
  lemma {:induction false} StripRendered(n: Option<int>, text: string)
    ensures StripPrefix(RenderOptional(n, text)) == text
  {
    var p := "#" + NumberText(n);
    assert RenderOptional(n, text) == p + " " + text;
    if n.Some? { IntToStringPlain(n.value); }
    assert ' ' !in p by {
      forall i | 0 <= i < |p| ensures p[i] != ' ' {
        if i > 0 { assert p[i] == NumberText(n)[i - 1]; }
      }
    }
    AfterFirstSpaceSkips(p, text);
  }

  /** A text that does not start with '#' is left alone by the strip. */
  lemma {:induction false} StripPlain(text: string)
    requires |text| == 0 || text[0] != '#'
    ensures StripPrefix(text) == text
  {
  }

  // ---------------------------------------------------------------------
  // The loose decoder of the comment scanner: re.search(r'#(\d+)', message)
  // ---------------------------------------------------------------------

  /** The longest run of digits at the start of `s`. */
  function LeadingDigits(s: string): (d: string)
    ensures |d| <= |s| && d == s[..|d|] && AllDigits(d)
    ensures |d| < |s| ==> !IsDigit(s[|d|])
  {
    if s == [] || !IsDigit(s[0]) then [] else [s[0]] + LeadingDigits(s[1..])
  }

  /** A '#' followed by a digit starts at index `i` of `s`. */
  predicate HashDigitAt(s: string, i: int) {
    0 <= i && i + 1 < |s| && s[i] == '#' && IsDigit(s[i + 1])
  }

  /** The value of the first '#' followed by one or more digits, scanning
      left to right; None when there is none. */
  function ExtractPostNumber(message: string): Option<nat>
  {
    if |message| < 2 then None
    else if HashDigitAt(message, 0) then Some(DigitsValue(LeadingDigits(message[1..])))
    else ExtractPostNumber(message[1..])
  }

  /** The loose decoder finds nothing exactly when no '#' is followed by a
      digit. */
  lemma {:induction false} ExtractNone(message: string)
    ensures ExtractPostNumber(message) == None <==> forall i :: !HashDigitAt(message, i)
  {
    if |message| >= 2 && !HashDigitAt(message, 0) {
      ExtractNone(message[1..]);
      forall i | HashDigitAt(message[1..], i) ensures HashDigitAt(message, i + 1) { }
      forall i | HashDigitAt(message, i) ensures HashDigitAt(message[1..], i - 1) { }
    }
  }

  lemma {:induction false} DigitsOfRender(n: nat, text: string)
    ensures LeadingDigits(Render(n, text)[1..]) == NatToString(n)
  {
    var d := NatToString(n);
    assert IntToString(n) == d;
    assert Render(n, text)[1..] == d + (" " + text);
    assert !IsDigit((" " + text)[0]);
    LeadingDigitsStop(d, " " + text);
  }

  lemma {:induction false} LeadingDigitsStop(d: string, rest: string)
    requires AllDigits(d)
    requires rest == [] || !IsDigit(rest[0])
    ensures LeadingDigits(d + rest) == d
  {
    if d != [] {
      assert (d + rest)[1..] == d[1..] + rest;
      LeadingDigitsStop(d[1..], rest);
    } else {
      assert d + rest == rest;
    }
  }

  /** The loose decoder reads a rendered non-negative number back. */
  lemma {:induction false} ExtractRendered(n: nat, text: string)
    ensures ExtractPostNumber(Render(n, text)) == Some(n)
  {
    DigitsOfRender(n, text);
    DigitsOfNat(n);
    assert Render(n, text)[1] == NatToString(n)[0];
  }

  /** For a negative number the '#' is followed by '-', so the loose decoder
      skips the prefix and reports whatever the text itself carries. */
  lemma {:induction false} ExtractRenderedNegative(n: int, text: string)
    requires n < 0
    ensures ExtractPostNumber(Render(n, text)) == ExtractPostNumber(text)
  {
    var m := Render(n, text);
    var d := NatToString(-n);
    assert m == ['#', '-'] + d + [' '] + text;
    ExtractSkips(['#', '-'] + d + [' '], text);
  }

  lemma {:induction false} ExtractSkips(p: string, text: string)
    requires |p| >= 1 && p[|p| - 1] == ' '
    requires forall i :: 0 <= i < |p| ==> p[i] != '#' || (i + 1 < |p| && !IsDigit(p[i + 1]))
    ensures ExtractPostNumber(p + text) == ExtractPostNumber(text)
  {
    if |p| == 1 {
      assert p + text == [' '] + text;
      if |text| >= 1 {
        assert (p + text)[1..] == text;
      }
    } else {
      assert (p + text)[1..] == p[1..] + text;
      ExtractSkips(p[1..], text);
    }
  }
}
