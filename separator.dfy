/**
  Choosing the CSV field separator from the delimiter flag (csv2map.go:171-184).
  `GetSeparator` wraps the flag in single quotes, unquotes it as a Go rune
  literal with `strconv.Unquote` (ignoring the error) and takes the first
  rune of the result. Strings are modelled as sequences of runes (Unicode
  scalar values), which is what a valid UTF-8 command-line argument decodes to.
 */
module Separator {
  import opened Wrappers

  /** The delimiter flag's default (csv2map.go:15); encoding/csv's own default field separator is the same comma. */
  const DefaultDelimiter: string := ","

  /** The rune a one-character escape stands for inside a single-quoted literal; `\"` is not one there. */
  function SimpleEscape(c: char): Option<char>
  {
    match c
    case 'a' => Some(7 as char)
    case 'b' => Some(8 as char)
    case 'f' => Some(12 as char)
    case 'n' => Some('\n')
    case 'r' => Some('\r')
    case 't' => Some('\t')
    case 'v' => Some(11 as char)
    case '\\' => Some('\\')
    case '\'' => Some('\'')
    case _ => None
  }

  function HexDigit(c: char): Option<nat>
  {
    if '0' <= c <= '9' then Some(c as int - '0' as int)
    else if 'a' <= c <= 'f' then Some(c as int - 'a' as int + 10)
    else if 'A' <= c <= 'F' then Some(c as int - 'A' as int + 10)
    else None
  }

  function Pow16(n: nat): (p: nat)
    ensures p >= 1
  {
    if n == 0 then 1 else 16 * Pow16(n - 1)
  }

  /** The value of a string of hexadecimal digits, or None if one is not a digit. */
  function HexValue(s: string): (r: Option<nat>)
    ensures r.Some? ==> r.value < Pow16(|s|)
  {
    if s == [] then Some(0)
    else match (HexValue(s[..|s| - 1]), HexDigit(s[|s| - 1]))
      case (Some(v), Some(d)) => Some(16 * v + d)
      case _ => None
  }

  function OctalDigit(c: char): Option<nat>
  {
    if '0' <= c <= '7' then Some(c as int - '0' as int) else None
  }

  /** A rune number Go accepts for `\u` and `\U`: not a surrogate, at most 0x10FFFF. */
  predicate ValidRune(v: nat)
  {
    v < 0xD800 || 0xE000 <= v <= 0x10FFFF
  }

  /**
    The rune that `[]rune` yields for a string holding the single byte `v`,
    as `\x` and octal escapes produce: the byte itself when it is ASCII, the
    replacement rune U+FFFD otherwise (a lone byte of 0x80 or more is not UTF-8).
   */
  function ByteRune(v: nat): char
    requires v < 256
  {
    if v < 0x80 then v as char else 0xFFFD as char
  }

  /**
    strconv.UnquoteChar(s, '\''): decode the first character of `s`, plain or
    escaped, and return it with the rest of `s`; None is ErrSyntax.
   */
  function UnquoteChar(s: string): (r: Option<(char, string)>)
    requires |s| > 0
    ensures r.Some? ==> |r.value.1| < |s|
  {
    if s[0] == '\'' then None
    else if s[0] != '\\' then Some((s[0], s[1..]))
    else if |s| == 1 then None
    else
      var c, rest := s[1], s[2..];
      if SimpleEscape(c).Some? then Some((SimpleEscape(c).value, rest))
      else if c == 'x' then
        if |rest| < 2 then None
        else match HexValue(rest[..2])
          case Some(v) => Some((ByteRune(v), rest[2..]))
          case None => None
      else if c == 'u' || c == 'U' then
        var n := if c == 'u' then 4 else 8;
        if |rest| < n then None
        else match HexValue(rest[..n])
          case Some(v) => if ValidRune(v) then Some((v as char, rest[n..])) else None
          case None => None
      else if OctalDigit(c).Some? then
        if |rest| < 2 || OctalDigit(rest[0]).None? || OctalDigit(rest[1]).None? then None
        else
          var v := 64 * OctalDigit(c).value + 8 * OctalDigit(rest[0]).value + OctalDigit(rest[1]).value;
          if v > 255 then None else Some((ByteRune(v), rest[2..]))
      else None
  }

  /**
    strconv.Unquote("'" + content + "'"), as the runes of the string it
    returns; None is ErrSyntax. A single-quoted literal holds one character,
    never a raw newline; the empty literal unquotes to the empty string.
   */
  function UnquoteRuneLiteral(content: string): (r: Option<seq<char>>)
    ensures r.Some? ==> |r.value| <= 1
  {
    if '\n' in content then None
    else if content == [] then Some([])
    else match UnquoteChar(content)
      case Some((ch, tail)) => if tail == [] then Some([ch]) else None
      case None => None
  }

  /** `[]rune(sep)` in GetSeparator: the unquoted delimiter, empty when Unquote failed (its error is discarded). */
  function DelimiterRunes(delimiter: string): seq<char>
  {
    match UnquoteRuneLiteral(delimiter)
    case Some(runes) => runes
    case None => []
  }

  /** Unquoting never yields more than one rune, so taking the first one truncates nothing. */
  lemma AtMostOneRune(delimiter: string)
    ensures |DelimiterRunes(delimiter)| <= 1
  {
  }

  /**
    GetSeparator (csv2map.go:179-184). Indexing `[0]` panics on an empty
    result, so callers must pass a delimiter that unquotes to a rune; the
    separator is then the whole unquoted delimiter.
   */
  function GetSeparator(delimiter: string): (sep: char)
    requires |DelimiterRunes(delimiter)| > 0
    ensures DelimiterRunes(delimiter) == [sep]
  {
    AtMostOneRune(delimiter);
    DelimiterRunes(delimiter)[0]
  }

  /**
    The field separator CSVReader gives the csv.Reader (csv2map.go:171-177):
    the default comma for the delimiter ",", GetSeparator(delimiter)
    otherwise; None where GetSeparator panics. The comma short-cut agrees
    with unquoting: the separator is always the unquoted delimiter.
   */
  function ReaderSeparator(delimiter: string): (r: Option<char>)
    ensures r.Some? <==> |DelimiterRunes(delimiter)| == 1
    ensures r.Some? ==> DelimiterRunes(delimiter) == [r.value]
    ensures delimiter == DefaultDelimiter ==> r == Some(',')
  {
    assert DelimiterRunes(DefaultDelimiter) == [','];
    AtMostOneRune(delimiter);
    if delimiter == DefaultDelimiter then Some(',')
    else if |DelimiterRunes(delimiter)| > 0 then Some(GetSeparator(delimiter))
    else None
  }

  /** A plain character other than a quote, a backslash or a newline is its own separator. */
  lemma PlainCharacter(c: char)
    requires c != '\'' && c != '\\' && c != '\n'
    ensures ReaderSeparator([c]) == Some(c)
  {
  }

  /** `\t` gives a tab and `;` a semicolon. */
  lemma TabAndSemicolon()
    ensures GetSeparator("\\t") == '\t'
    ensures GetSeparator(";") == ';'
  {
    assert UnquoteChar("\\t") == Some(('\t', ""));
  }

  /** The empty delimiter, and any delimiter of two or more characters not starting with a backslash, panic. */
  lemma UnquotableDelimiters(delimiter: string)
    requires delimiter == [] || (|delimiter| >= 2 && delimiter[0] != '\\')
    ensures ReaderSeparator(delimiter) == None
  {
  }

  /** The shortest way to write `c` as the delimiter flag: escaped when it is a quote, a backslash or a newline. */
  function EscapedRune(c: char): string
  {
    if c == '\'' then "\\'" else if c == '\\' then "\\\\" else if c == '\n' then "\\n" else [c]
  }

  /** Every rune can be chosen as the separator, by its escaped form. */
  lemma EscapedRuneRoundTrip(c: char)
    ensures ReaderSeparator(EscapedRune(c)) == Some(c)
  {
    if c == '\'' {
      assert UnquoteChar("\\'") == Some(('\'', ""));
    } else if c == '\\' {
      assert UnquoteChar("\\\\") == Some(('\\', ""));
    } else if c == '\n' {
      assert UnquoteChar("\\n") == Some(('\n', ""));
    }
  }

  /** The `n` lower-case hexadecimal digits of `v`, most significant first. */
  function HexDigits(v: nat, n: nat): (s: string)
    ensures |s| == n
    ensures forall i :: 0 <= i < n ==> HexDigit(s[i]).Some?
  {
    if n == 0 then [] else HexDigits(v / 16, n - 1) + ["0123456789abcdef"[v % 16]]
  }

  lemma {:induction false} HexValueOfDigits(v: nat, n: nat)
    requires v < Pow16(n)
    ensures HexValue(HexDigits(v, n)) == Some(v)
  {
    if n > 0 {
      var s := HexDigits(v, n);
      assert s[..n - 1] == HexDigits(v / 16, n - 1);
      HexValueOfDigits(v / 16, n - 1);
      assert HexDigit(s[n - 1]) == Some(v % 16);
    }
  }

  /** Every rune can also be given as a `\U` escape of its eight hexadecimal digits. */
  lemma UnicodeEscapeRoundTrip(c: char)
    ensures ReaderSeparator("\\U" + HexDigits(c as int, 8)) == Some(c)
  {
    var digits := HexDigits(c as int, 8);
    assert Pow16(8) == 0x1_0000_0000;
    HexValueOfDigits(c as int, 8);
    var s := "\\U" + digits;
    assert s[2..] == digits;
    assert s[2..][..8] == digits;
    assert UnquoteChar(s) == Some((c, ""));
    assert '\n' !in s by {
      assert forall i :: 2 <= i < |s| ==> s[i] == digits[i - 2];
    }
  }
}
