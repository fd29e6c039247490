/**
  The run's configuration and the checks `process` makes on it before any
  input or output (csv2map.go:79-94).
 */
module Config {
  import opened Wrappers

  /**
    The command-line flags (csv2map.go:27-36), gathered into one immutable
    record. `inspect` is the `-test` flag.
   */
  datatype Config = Config(
    keyIndex: int,
    valueIndex: int,
    mapName: string,
    packageName: string,
    fileName: string,
    delimiter: string,
    inspect: bool,
    ignoreHeader: bool)

  /** The flags' values when none is given on the command line (csv2map.go:39-61). */
  const Defaults: Config := Config(0, 0, "", "", "", ",", false, false)

  /** The four ways a configuration is rejected, in the order `process` checks them. */
  datatype ValidationError =
    | InvalidKeyIndex(index: int)
    | InvalidValueIndex(index: int)
    | MapNameMissing
    | PackageNameMissing

  /**
    Every requirement the configuration breaks, in checking order: a
    validator that reported all problems would report these.
   */
  function Violations(c: Config): seq<ValidationError>
  {
    (if c.keyIndex < 1 then [InvalidKeyIndex(c.keyIndex)] else [])
    + (if c.valueIndex < 1 then [InvalidValueIndex(c.valueIndex)] else [])
    + (if c.mapName == "" then [MapNameMissing] else [])
    + (if c.packageName == "" then [PackageNameMissing] else [])
  }

  /**
    The guards at the top of `process`: the first one that fails decides
    the error, and a configuration that passes all four is accepted.
   */
  function Validate(c: Config): (r: Option<ValidationError>)
    ensures r.None? <==> Violations(c) == []
    ensures r.Some? ==> r.value == Violations(c)[0]
    ensures r.None? <==> c.keyIndex >= 1 && c.valueIndex >= 1 && c.mapName != "" && c.packageName != ""
  {
    if c.keyIndex < 1 then Some(InvalidKeyIndex(c.keyIndex))
    else if c.valueIndex < 1 then Some(InvalidValueIndex(c.valueIndex))
    else if c.mapName == "" then Some(MapNameMissing)
    else if c.packageName == "" then Some(PackageNameMissing)
    else None
  }

  /** Validation looks only at the four required flags, never at the input path, delimiter or modes. */
  lemma ValidateReadsOnlyRequiredFlags(c: Config, d: Config)
    requires c.keyIndex == d.keyIndex && c.valueIndex == d.valueIndex
    requires c.mapName == d.mapName && c.packageName == d.packageName
    ensures Validate(c) == Validate(d)
  {
  }

  /** With no flags at all, the key index is what is reported. */
  lemma DefaultsRejectKeyIndex()
    ensures Validate(Defaults) == Some(InvalidKeyIndex(0))
    ensures |Violations(Defaults)| == 4
  {
  }

  // ----- error texts -----

  function DigitChar(d: nat): (ch: char)
    requires d < 10
    ensures '0' <= ch <= '9'
  {
    ('0' as int + d) as char
  }

  predicate IsDigits(s: string)
  {
    forall i :: 0 <= i < |s| ==> '0' <= s[i] <= '9'
  }

  /** The decimal digits of `n`, most significant first, with no leading zero. */
  function FormatNat(n: nat): (s: string)
    ensures |s| >= 1 && IsDigits(s)
    decreases n
  {
    if n < 10 then [DigitChar(n)] else FormatNat(n / 10) + [DigitChar(n % 10)]
  }

  /** What Go's `%d` verb prints for an int. */
  function FormatInt(n: int): (s: string)
    ensures |s| >= 1
    ensures s[0] == '-' <==> n < 0
  {
    if n < 0 then "-" + FormatNat(-n) else FormatNat(n)
  }

  /** The number a string of decimal digits denotes. */
  function ParseNat(s: string): nat
    requires IsDigits(s)
  {
    if s == [] then 0 else ParseNat(s[..|s| - 1]) * 10 + (s[|s| - 1] as int - '0' as int)
  }

  lemma {:induction false} ParseFormatNat(n: nat)
    ensures ParseNat(FormatNat(n)) == n
    decreases n
  {
    if n >= 10 {
      var s := FormatNat(n);
      assert s[..|s| - 1] == FormatNat(n / 10);
      ParseFormatNat(n / 10);
    }
  }

  /** Distinct integers print differently. */
  lemma FormatIntInjective(a: int, b: int)
    requires FormatInt(a) == FormatInt(b)
    ensures a == b
  {
    assert a < 0 <==> b < 0;
    if a < 0 {
      var na: nat, nb: nat := -a, -b;
      assert FormatInt(a) == "-" + FormatNat(na);
      assert FormatInt(b) == "-" + FormatNat(nb);
      assert FormatNat(na) == FormatInt(a)[1..];
      ParseFormatNat(na);
      ParseFormatNat(nb);
    } else {
      ParseFormatNat(a);
      ParseFormatNat(b);
    }
  }

  /** The text of the error `process` returns for a rejected configuration. */
  function Message(e: ValidationError): string
  {
    match e
    case InvalidKeyIndex(k) => "Invalid key index '" + FormatInt(k) + "'\n"
    case InvalidValueIndex(v) => "Invalid value index '" + FormatInt(v) + "'\n"
    case MapNameMissing => "Map name not provided"
    case PackageNameMissing => "Package name not provided"
  }

  /** Equal texts framed by the same prefix and suffix have equal middles. */
  lemma SameMiddle(prefix: string, x: string, y: string, suffix: string)
    requires prefix + x + suffix == prefix + y + suffix
    ensures x == y
  {
    var t := prefix + x + suffix;
    assert x == t[|prefix|..|prefix| + |x|];
    assert y == t[|prefix|..|prefix| + |y|];
  }

  /** A message names its check and, for an index, the offending value: no two errors share one. */
  lemma MessageIdentifiesError(e: ValidationError, f: ValidationError)
    requires Message(e) == Message(f)
    ensures e == f
  {
    var m := Message(e);
    assert m[0] == Message(f)[0];
    if e.InvalidKeyIndex? || e.InvalidValueIndex? {
      assert m[0] == 'I';
      assert f.InvalidKeyIndex? || f.InvalidValueIndex?;
      assert m[8] == Message(f)[8];
      assert e.InvalidKeyIndex? <==> m[8] == 'k';
      assert f.InvalidKeyIndex? <==> Message(f)[8] == 'k';
      var prefix := if e.InvalidKeyIndex? then "Invalid key index '" else "Invalid value index '";
      assert m == prefix + FormatInt(e.index) + "'\n";
      assert Message(f) == prefix + FormatInt(f.index) + "'\n";
      SameMiddle(prefix, FormatInt(e.index), FormatInt(f.index), "'\n");
      FormatIntInjective(e.index, f.index);
    }
  }
}
