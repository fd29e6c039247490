/**
  Joining fields with one separator character, and splitting a line back
  into its fields. Inspect mode prints a row's fields with a tab between
  consecutive fields (csv2map.go:144-149); Split is its inverse.
 */
module Text {

  /** The index of the first occurrence of `c` in `s`. */
  function IndexOf(s: string, c: char): (i: nat)
    requires c in s
    ensures i < |s| && s[i] == c && c !in s[..i]
  {
    if s[0] == c then 0
    else
      var j := IndexOf(s[1..], c);
      assert s[..j + 1] == [s[0]] + s[1..][..j];
      j + 1
  }

  /** The parts in order, with exactly one `sep` between consecutive parts. */
  function Join(parts: seq<string>, sep: char): string
  {
    if |parts| == 0 then ""
    else if |parts| == 1 then parts[0]
    else parts[0] + [sep] + Join(parts[1..], sep)
  }

  /** The pieces of `s` between occurrences of `sep`; never empty. */
  function Split(s: string, sep: char): (r: seq<string>)
    ensures |r| >= 1
    ensures forall i :: 0 <= i < |r| ==> sep !in r[i]
    decreases |s|
  {
    if sep !in s then [s]
    else
      var i := IndexOf(s, sep);
      [s[..i]] + Split(s[i + 1..], sep)
  }

  /** True when no part contains `c`. */
  predicate Avoids(parts: seq<string>, c: char)
  {
    forall i :: 0 <= i < |parts| ==> c !in parts[i]
  }

  /** Appending one more part adds one separator and the part. */
  lemma {:induction false} JoinSnoc(parts: seq<string>, part: string, sep: char)
    requires |parts| >= 1
    ensures Join(parts + [part], sep) == Join(parts, sep) + [sep] + part
  {
    if |parts| == 1 {
      assert parts + [part] == [parts[0], part];
    } else {
      assert (parts + [part])[1..] == parts[1..] + [part];
      JoinSnoc(parts[1..], part, sep);
    }
  }

  /** A character other than the separator occurs in the joined text only if it occurs in a part. */
  lemma {:induction false} JoinAvoids(parts: seq<string>, sep: char, c: char)
    requires c != sep && Avoids(parts, c)
    ensures c !in Join(parts, sep)
  {
    if |parts| > 1 {
      JoinAvoids(parts[1..], sep, c);
    }
  }

  /** Splitting the joined parts gives the parts back, when none contains the separator. */
  lemma {:induction false} SplitJoin(parts: seq<string>, sep: char)
    requires |parts| >= 1 && Avoids(parts, sep)
    ensures Split(Join(parts, sep), sep) == parts
  {
    assert Split(parts[0], sep) == [parts[0]];
    if |parts| > 1 {
      assert Join(parts, sep) == parts[0] + [sep] + Join(parts[1..], sep);
      SplitConcat(parts[0], Join(parts[1..], sep), sep);
      SplitJoin(parts[1..], sep);
      assert parts == [parts[0]] + parts[1..];
    }
  }

  /** Joining the pieces of a split gives the text back. */
  lemma {:induction false} JoinSplit(s: string, sep: char)
    ensures Join(Split(s, sep), sep) == s
    decreases |s|
  {
    if sep in s {
      var i := IndexOf(s, sep);
      var rest := Split(s[i + 1..], sep);
      JoinSplit(s[i + 1..], sep);
      SplitAt(s, sep, i);
      JoinCons(s[..i], rest, sep);
      CutAt(s, i);
    }
  }

  /** Joining a first part onto at least one more. */
  lemma JoinCons(part: string, parts: seq<string>, sep: char)
    requires |parts| >= 1
    ensures Join([part] + parts, sep) == part + [sep] + Join(parts, sep)
  {
    assert ([part] + parts)[1..] == parts;
  }

  /** A sequence is its prefix, the element at the cut, and its suffix. */
  lemma CutAt<T>(s: seq<T>, i: nat)
    requires i < |s|
    ensures s == s[..i] + [s[i]] + s[i + 1..]
  {
  }

  /** The first occurrence is the only position holding `c` with no `c` before it. */
  lemma IndexOfUnique(s: string, c: char, k: nat)
    requires k < |s| && s[k] == c && c !in s[..k]
    ensures IndexOf(s, c) == k
  {
  }

  /** Splitting at a separator with none before it: the piece before it, then the pieces after it. */
  lemma SplitAt(s: string, sep: char, k: nat)
    requires k < |s| && s[k] == sep && sep !in s[..k]
    ensures Split(s, sep) == [s[..k]] + Split(s[k + 1..], sep)
  {
    IndexOfUnique(s, sep, k);
  }

  /** Dropping a prefix of the first of two joined sequences. */
  lemma DropConcat(a: string, b: string, k: nat)
    requires k <= |a|
    ensures (a + b)[k..] == a[k..] + b
    ensures (a + b)[..k] == a[..k]
  {
  }

  /** Text joined around one separator splits into the pieces of each side. */
  lemma {:induction false} SplitConcat(s: string, t: string, sep: char)
    ensures Split(s + [sep] + t, sep) == Split(s, sep) + Split(t, sep)
    decreases |s|
  {
    if sep !in s {
      SplitConcatFirst(s, t, sep);
    } else {
      var i := IndexOf(s, sep);
      SplitConcat(s[i + 1..], t, sep);
      SplitConcatLater(s, t, sep, i);
    }
  }

  /** SplitConcat when the separator added is the first one. */
  lemma SplitConcatFirst(s: string, t: string, sep: char)
    requires sep !in s
    ensures Split(s + [sep] + t, sep) == Split(s, sep) + Split(t, sep)
  {
    var rest := [sep] + t;
    var whole := s + rest;
    assert s + [sep] + t == whole;
    DropConcat(s, rest, |s|);
    assert whole[|s| + 1..] == t;
    SplitAt(whole, sep, |s|);
  }

  /** SplitConcat when `s` already holds a separator, at `i`, given the result for the text after it. */
  lemma SplitConcatLater(s: string, t: string, sep: char, i: nat)
    requires sep in s && i == IndexOf(s, sep)
    requires Split(s[i + 1..] + [sep] + t, sep) == Split(s[i + 1..], sep) + Split(t, sep)
    ensures Split(s + [sep] + t, sep) == Split(s, sep) + Split(t, sep)
  {
    var rest := [sep] + t;
    var whole := s + rest;
    var after := s[i + 1..];
    Associative(s, [sep], t);
    Associative(after, [sep], t);
    DropConcat(s, rest, i);
    DropConcat(s, rest, i + 1);
    SplitAt(whole, sep, i);
    SplitAt(s, sep, i);
    Associative([s[..i]], Split(after, sep), Split(t, sep));
  }

  /** Concatenation is associative. */
  lemma Associative<T>(p: seq<T>, q: seq<T>, r: seq<T>)
    ensures p + (q + r) == (p + q) + r
  {
  }
}
