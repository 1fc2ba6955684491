/**
 * The two JavaScript built-ins the request builder relies on:
 * `String.prototype.trim` (used to reject blank search terms) and
 * `Number.prototype.toString` on integers (used for the `page` parameter).
 */
module JsText {
  import opened Wrappers

  /**
   * The characters `trim` strips: the WhiteSpace and LineTerminator code points
   * of ECMA-262 (sections 12.2 and 12.3): tab, vertical tab, form feed, space,
   * no-break space, byte order mark, the other Unicode "Zs" space separators,
   * line feed, carriage return, line separator and paragraph separator.
   */
  predicate IsTrimmable(c: char) {
    || c == '\U{0009}' || c == '\U{000B}' || c == '\U{000C}' || c == '\U{0020}'
    || c == '\U{00A0}' || c == '\U{FEFF}' || c == '\U{1680}'
    || ('\U{2000}' <= c <= '\U{200A}') || c == '\U{202F}' || c == '\U{205F}' || c == '\U{3000}'
    || c == '\U{000A}' || c == '\U{000D}' || c == '\U{2028}' || c == '\U{2029}'
  }

  function TrimStart(s: string): string
    decreases |s|
  {
    if s != [] && IsTrimmable(s[0]) then TrimStart(s[1..]) else s
  }

  function TrimEnd(s: string): string
    decreases |s|
  {
    if s != [] && IsTrimmable(s[|s| - 1]) then TrimEnd(s[..|s| - 1]) else s
  }

  /**
   * `s.trim()`: the slice of `s` left after stripping trimmable characters
   * from both ends; unless empty, it starts and ends with a significant
   * character.
   */
  function Trim(s: string): (r: string)
    ensures |r| <= |s|
    ensures exists i, j :: 0 <= i <= j <= |s| && r == s[i..j] && AllTrimmable(s[..i]) && AllTrimmable(s[j..])
    ensures r != "" ==> !IsTrimmable(r[0]) && !IsTrimmable(r[|r| - 1])
  {
    var t := TrimStart(s);
    TrimStartIsSuffix(s);
    TrimStartFirst(s);
    TrimEndKeepsFirst(t);
    TrimEndLast(t);
    var i := |s| - |t|;
    var j := i + |TrimEnd(t)|;
    assert TrimEnd(t) == s[i..j] && s[j..] == t[|TrimEnd(t)|..];
    TrimEnd(t)
  }

  /** `!s.trim()`: the empty string is the only falsy string, so a term is blank exactly when all of it is trimmable. */
  function IsBlank(s: string): (b: bool)
    ensures b <==> AllTrimmable(s)
  {
    BlankIffAllTrimmable(s);
    Trim(s) == ""
  }

  ghost predicate AllTrimmable(s: string) {
    forall k :: 0 <= k < |s| ==> IsTrimmable(s[k])
  }

  lemma {:induction false} TrimStartEmptyIff(s: string)
    ensures TrimStart(s) == "" <==> AllTrimmable(s)
    decreases |s|
  {
    if s != [] && IsTrimmable(s[0]) {
      TrimStartEmptyIff(s[1..]);
      assert AllTrimmable(s) <==> AllTrimmable(s[1..]) by {
        if AllTrimmable(s[1..]) {
          forall k | 0 <= k < |s| ensures IsTrimmable(s[k]) {
            if k > 0 { assert s[k] == s[1..][k - 1]; }
          }
        }
      }
    } else if s != [] {
      assert !IsTrimmable(s[0]);
    }
  }

  lemma {:induction false} TrimEndEmptyIff(s: string)
    ensures TrimEnd(s) == "" <==> AllTrimmable(s)
    decreases |s|
  {
    if s != [] && IsTrimmable(s[|s| - 1]) {
      var init := s[..|s| - 1];
      TrimEndEmptyIff(init);
      assert AllTrimmable(s) <==> AllTrimmable(init) by {
        if AllTrimmable(init) {
          forall k | 0 <= k < |s| ensures IsTrimmable(s[k]) {
            if k < |s| - 1 { assert s[k] == init[k]; }
          }
        }
      }
    } else if s != [] {
      assert !IsTrimmable(s[|s| - 1]);
    }
  }

  /** TrimStart drops a prefix made only of trimmable characters. */
  lemma {:induction false} TrimStartIsSuffix(s: string)
    ensures |TrimStart(s)| <= |s|
    ensures TrimStart(s) == s[|s| - |TrimStart(s)|..]
    ensures AllTrimmable(s[..|s| - |TrimStart(s)|])
    decreases |s|
  {
    if s != [] && IsTrimmable(s[0]) {
      TrimStartIsSuffix(s[1..]);
      var d := |s| - |TrimStart(s)|;
      assert s[..d] == [s[0]] + s[1..][..d - 1];
    }
  }

  /**
   * A term is blank (rejected as a search term) exactly when every one of its
   * characters is trimmable; in particular "" and "   " are blank.
   */
  lemma BlankIffAllTrimmable(s: string)
    ensures Trim(s) == "" <==> AllTrimmable(s)
  {
    var t := TrimStart(s);
    TrimEndEmptyIff(t);
    TrimStartEmptyIff(s);
    TrimStartIsSuffix(s);
    var d := |s| - |t|;
    if AllTrimmable(t) {
      assert t == [] by { TrimStartFirst(s); }
      forall k | 0 <= k < |s| ensures IsTrimmable(s[k]) {
        assert s[k] == s[..d][k];
      }
    }
  }

  lemma {:induction false} TrimStartFirst(s: string)
    ensures TrimStart(s) != "" ==> !IsTrimmable(TrimStart(s)[0])
    decreases |s|
  {
    if s != [] && IsTrimmable(s[0]) { TrimStartFirst(s[1..]); }
  }

  lemma {:induction false} TrimEndLast(s: string)
    ensures TrimEnd(s) != "" ==> !IsTrimmable(TrimEnd(s)[|TrimEnd(s)| - 1])
    decreases |s|
  {
    if s != [] && IsTrimmable(s[|s| - 1]) { TrimEndLast(s[..|s| - 1]); }
  }

  /** TrimEnd drops a suffix made only of trimmable characters and keeps the rest as a prefix. */
  lemma {:induction false} TrimEndKeepsFirst(s: string)
    ensures |TrimEnd(s)| <= |s|
    ensures TrimEnd(s) == s[..|TrimEnd(s)|]
    ensures AllTrimmable(s[|TrimEnd(s)|..])
    decreases |s|
  {
    if s != [] && IsTrimmable(s[|s| - 1]) {
      var init := s[..|s| - 1];
      TrimEndKeepsFirst(init);
      var n := |TrimEnd(s)|;
      forall k | 0 <= k < |s[n..]| ensures IsTrimmable(s[n..][k]) {
        if n + k < |s| - 1 {
          assert s[n..][k] == init[n..][k];
        }
      }
    }
  }

  // ---------------------------------------------------------------------------
  // Integer to decimal text, as `Number.prototype.toString()` prints an integer.

  function DigitChar(d: nat): (c: char)
    requires d < 10
    ensures '0' <= c <= '9' && c as int - '0' as int == d
  {
    ('0' as int + d) as char
  }

  function DigitValue(c: char): nat
    requires '0' <= c <= '9'
  {
    (c as int - '0' as int) as nat
  }

  /** Decimal digits of `n`, most significant first, without leading zeros. */
  function NatToDecimal(n: nat): (s: string)
    decreases n
  {
    if n < 10 then [DigitChar(n)] else NatToDecimal(n / 10) + [DigitChar(n % 10)]
  }

  /** `n.toString()` for an integer-valued number: a minus sign for negatives, then the digits. */
  function IntToDecimal(n: int): string {
    if n < 0 then "-" + NatToDecimal(-n) else NatToDecimal(n)
  }

  predicate AllDigits(s: string) {
    forall k :: 0 <= k < |s| ==> '0' <= s[k] <= '9'
  }

  /** Value of a string of decimal digits. */
  function DigitsValue(s: string): nat
    requires AllDigits(s)
    decreases |s|
  {
    if s == [] then 0 else 10 * DigitsValue(s[..|s| - 1]) + DigitValue(s[|s| - 1])
  }

  /** Reads back what IntToDecimal prints: an optional minus sign, then at least one digit. */
  function ParseDecimal(s: string): Option<int> {
    if s != [] && s[0] == '-' && |s| > 1 && AllDigits(s[1..]) then Some(0 - DigitsValue(s[1..]) as int)
    else if s != [] && AllDigits(s) then Some(DigitsValue(s))
    else None
  }

  /** The digits of n are non-empty, start with a non-zero digit unless n is 0, and read back to n. */
  lemma {:induction false} NatToDecimalRoundTrip(n: nat)
    ensures NatToDecimal(n) != [] && AllDigits(NatToDecimal(n))
    ensures DigitsValue(NatToDecimal(n)) == n
    ensures n > 0 ==> NatToDecimal(n)[0] != '0'
    decreases n
  {
    if n >= 10 {
      NatToDecimalRoundTrip(n / 10);
      var s := NatToDecimal(n);
      assert s[..|s| - 1] == NatToDecimal(n / 10);
      assert DigitValue(DigitChar(n % 10)) == n % 10;
    } else {
      assert DigitValue(DigitChar(n)) == n;
    }
  }

  /** Printing then parsing an integer gives it back, so distinct pages print differently. */
  lemma IntToDecimalRoundTrip(n: int)
    ensures ParseDecimal(IntToDecimal(n)) == Some(n)
  {
    var s := IntToDecimal(n);
    if n < 0 {
      var digits := NatToDecimal(-n);
      NatToDecimalRoundTrip(-n);
      assert s == "-" + digits;
      assert s[1..] == digits;
      assert s[0] == '-' && |s| > 1 && AllDigits(s[1..]);
      assert ParseDecimal(s) == Some(0 - DigitsValue(digits) as int);
    } else {
      NatToDecimalRoundTrip(n);
      assert s[0] != '-';
      assert ParseDecimal(s) == Some(DigitsValue(s));
    }
  }
}
