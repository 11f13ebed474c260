/**
 * `FromStr for SignificantBits` in src/main.rs: the `--bits` argument is
 * trimmed of ASCII whitespace at both ends and must then be one of the
 * strings "1" to "8".
 */
module Parse {
  import opened Wrappers
  import opened Quantiser

  /** The error text `from_str` returns for every other string. */
  const ParseError: string := "expected value between 1 and 8"

  /**
   * Rust's `u8::is_ascii_whitespace`: space, horizontal tab, line feed,
   * form feed and carriage return. Vertical tab (U+000B) is not included.
   */
  predicate IsAsciiWhitespace(c: char)
  {
    c == ' ' || c == '\t' || c == '\n' || c == '\U{C}' || c == '\r'
  }

  /** Every ASCII whitespace character is a space or a control character, and vertical tab is not one of them. */
  lemma WhitespaceCharacters(c: char)
    ensures IsAsciiWhitespace(c) ==> c as int <= 32 && c != '\U{B}'
    ensures IsAsciiWhitespace(c) <==> c as int in {9, 10, 12, 13, 32}
  {
  }

  predicate AllWhitespace(s: string)
  {
    forall i :: 0 <= i < |s| ==> IsAsciiWhitespace(s[i])
  }

  /** `str::trim_ascii_start`: drops the longest all-whitespace prefix. */
  function TrimStart(s: string): (r: string)
    ensures |r| <= |s| && r == s[|s| - |r|..]
    ensures AllWhitespace(s[..|s| - |r|])
    ensures r == [] || !IsAsciiWhitespace(r[0])
  {
    if s != [] && IsAsciiWhitespace(s[0]) then TrimStart(s[1..]) else s
  }

  /** `str::trim_ascii_end`: drops the longest all-whitespace suffix. */
  function TrimEnd(s: string): (r: string)
    ensures |r| <= |s| && r == s[..|r|]
    ensures AllWhitespace(s[|r|..])
    ensures r == [] || !IsAsciiWhitespace(r[|r| - 1])
  {
    if s != [] && IsAsciiWhitespace(s[|s| - 1]) then TrimEnd(s[..|s| - 1]) else s
  }

  /**
   * `str::trim_ascii`: the part of `s` left after dropping whitespace at
   * both ends; it neither starts nor ends with whitespace.
   */
  function TrimAscii(s: string): (r: string)
    ensures exists i, j :: 0 <= i <= j <= |s| && r == s[i..j] && AllWhitespace(s[..i]) && AllWhitespace(s[j..])
    ensures r == [] || (!IsAsciiWhitespace(r[0]) && !IsAsciiWhitespace(r[|r| - 1]))
  {
    var u := TrimStart(s);
    var r := TrimEnd(u);
    var i, j := |s| - |u|, |s| - |u| + |r|;
    assert r == s[i..j];
    assert s[j..] == u[|r|..];
    r
  }

  /**
   * `SignificantBits::from_str`: a success names the variant whose digit is
   * the trimmed input; a failure always carries the same text.
   */
  function FromStr(s: string): (r: Result<SignificantBits, string>)
    ensures r.Ok? ==> TrimAscii(s) == Show(r.value)
    ensures r.Err? ==> r.error == ParseError
  {
    var t := TrimAscii(s);
    if t == "1" then Ok(Bits1)
    else if t == "2" then Ok(Bits2)
    else if t == "3" then Ok(Bits3)
    else if t == "4" then Ok(Bits4)
    else if t == "5" then Ok(Bits5)
    else if t == "6" then Ok(Bits6)
    else if t == "7" then Ok(Bits7)
    else if t == "8" then Ok(Bits8)
    else Err(ParseError)
  }

  /** The decimal digit that names a variant: the character '0' + n. */
  function Show(b: SignificantBits): (r: string)
    ensures |r| == 1 && r[0] as int == '0' as int + Count(b)
  {
    match b
    case Bits1 => "1"
    case Bits2 => "2"
    case Bits3 => "3"
    case Bits4 => "4"
    case Bits5 => "5"
    case Bits6 => "6"
    case Bits7 => "7"
    case Bits8 => "8"
  }

  /** Trimming leaves a string that is already free of surrounding whitespace unchanged, whatever whitespace surrounds it. */
  lemma {:induction false} TrimStartWrapped(p: string, u: string)
    requires AllWhitespace(p)
    requires u == [] || !IsAsciiWhitespace(u[0])
    ensures TrimStart(p + u) == u
  {
    if p != [] {
      assert (p + u)[1..] == p[1..] + u;
      TrimStartWrapped(p[1..], u);
    }
  }

  lemma {:induction false} TrimEndWrapped(u: string, q: string)
    requires AllWhitespace(q)
    requires u == [] || !IsAsciiWhitespace(u[|u| - 1])
    ensures TrimEnd(u + q) == u
  {
    if q != [] {
      assert (u + q)[..|u + q| - 1] == u + q[..|q| - 1];
      TrimEndWrapped(u, q[..|q| - 1]);
    }
  }

  /**
   * The converse of TrimAscii's contract: whitespace around a string that
   * neither starts nor ends with whitespace is exactly what is trimmed.
   */
  lemma TrimAsciiWrapped(p: string, t: string, q: string)
    requires AllWhitespace(p) && AllWhitespace(q)
    requires t == [] || (!IsAsciiWhitespace(t[0]) && !IsAsciiWhitespace(t[|t| - 1]))
    ensures TrimAscii(p + t + q) == t
  {
    if t == [] {
      assert p + t + q == p + q;
      assert AllWhitespace(p + q);
    } else {
      assert p + t + q == p + (t + q);
      TrimStartWrapped(p, t + q);
      TrimEndWrapped(t, q);
    }
  }

  /**
   * `from_str` accepts exactly the strings whose trimmed form is a single
   * digit 1 to 8, returns the variant keeping that many bits, and returns
   * the fixed error text for everything else.
   */
  lemma FromStrDigits(s: string)
    ensures FromStr(s).Ok? <==> |TrimAscii(s)| == 1 && '1' <= TrimAscii(s)[0] <= '8'
    ensures FromStr(s).Ok? ==> Count(FromStr(s).value) == TrimAscii(s)[0] as int - '0' as int
    ensures FromStr(s).Err? ==> FromStr(s).error == ParseError
  {
    var t := TrimAscii(s);
    if |t| == 1 && '1' <= t[0] <= '8' {
      assert t == [t[0]];
    }
  }

  /** `from_str(s)` is `Ok(b)` exactly when `s` trims to the digit of `b`. */
  lemma FromStrIsShow(s: string, b: SignificantBits)
    ensures FromStr(s) == Ok(b) <==> TrimAscii(s) == Show(b)
  {
    FromStrDigits(s);
    if TrimAscii(s) == Show(b) {
      assert TrimAscii(s)[0] == Show(b)[0];
    }
  }

  /** Round trip, also through any surrounding ASCII whitespace. */
  lemma FromStrShow(b: SignificantBits, p: string, q: string)
    requires AllWhitespace(p) && AllWhitespace(q)
    ensures FromStr(Show(b)) == Ok(b)
    ensures FromStr(p + Show(b) + q) == Ok(b)
  {
    TrimAsciiWrapped([], Show(b), []);
    assert [] + Show(b) + [] == Show(b);
    TrimAsciiWrapped(p, Show(b), q);
    FromStrIsShow(Show(b), b);
    FromStrIsShow(p + Show(b) + q, b);
  }

  /** A vertical tab is not trimmed, so a value preceded by one is refused. */
  lemma VerticalTabRefused(b: SignificantBits)
    ensures FromStr("\U{B}" + Show(b)).Err?
  {
    var s := "\U{B}" + Show(b);
    TrimAsciiWrapped([], s, []);
    assert [] + s + [] == s;
    FromStrDigits(s);
  }

  /** The default of the `--bits` option, the string "6", keeps six bits. */
  lemma DefaultBits()
    ensures FromStr("6") == Ok(Bits6)
  {
    FromStrShow(Bits6, [], []);
  }
}
