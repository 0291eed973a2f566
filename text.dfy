// String helpers that stand for the few java.lang.String and
// java.util.StringTokenizer operations the poller relies on.

module Text {

  /** Java's String.startsWith. */
  predicate StartsWith(s: string, prefix: string)
  {
    |prefix| <= |s| && s[..|prefix|] == prefix
  }

  /** Java's String.endsWith. */
  predicate EndsWith(s: string, suffix: string)
  {
    |suffix| <= |s| && s[|s| - |suffix|..] == suffix
  }

  /** Lower-casing of one character; only the ASCII letters are mapped. */
  function LowerChar(c: char): char
  {
    if 'A' <= c <= 'Z' then (c as int - 'A' as int + 'a' as int) as char else c
  }

  function ToLower(s: string): (r: string)
    ensures |r| == |s|
    ensures forall i :: 0 <= i < |s| ==> r[i] == LowerChar(s[i])
  {
    if s == [] then [] else [LowerChar(s[0])] + ToLower(s[1..])
  }

  /** A string that lower-casing leaves unchanged has no upper-case ASCII letter. */
  predicate IsLower(s: string)
  {
    forall i :: 0 <= i < |s| ==> !('A' <= s[i] <= 'Z')
  }

  lemma ToLowerIsLower(s: string)
    ensures IsLower(ToLower(s))
  {
  }

  lemma LowerKeeps(s: string)
    requires IsLower(s)
    ensures ToLower(s) == s
  {
  }

  /** Java's String.trim: strips every character up to U+0020 at both ends. */
  function TrimStart(s: string): (r: string)
    ensures |r| <= |s| && r == s[|s| - |r|..]
    ensures r == [] || r[0] > ' '
  {
    if s != [] && s[0] <= ' ' then TrimStart(s[1..]) else s
  }

  function TrimEnd(s: string): (r: string)
    ensures |r| <= |s| && r == s[..|r|]
    ensures r == [] || r[|r| - 1] > ' '
  {
    if s != [] && s[|s| - 1] <= ' ' then TrimEnd(s[..|s| - 1]) else s
  }

  function Trim(s: string): string
  {
    TrimEnd(TrimStart(s))
  }

  lemma TrimKeeps(s: string)
    requires s != [] && s[0] > ' ' && s[|s| - 1] > ' '
    ensures Trim(s) == s
  {
  }

  /**
   * Java's String.compareTo: the difference of the first pair of
   * differing characters, else the difference of the lengths.
   */
  function CompareTo(a: string, b: string): int
  {
    if a == [] || b == [] then |a| - |b|
    else if a[0] != b[0] then a[0] as int - b[0] as int
    else CompareTo(a[1..], b[1..])
  }

  lemma {:induction false} CompareToAntisymmetric(a: string, b: string)
    ensures CompareTo(a, b) == -CompareTo(b, a)
  {
    if a != [] && b != [] && a[0] == b[0] {
      CompareToAntisymmetric(a[1..], b[1..]);
    }
  }

  lemma {:induction false} CompareToZeroIffEqual(a: string, b: string)
    ensures CompareTo(a, b) == 0 <==> a == b
  {
    if a != [] && b != [] && a[0] == b[0] {
      CompareToZeroIffEqual(a[1..], b[1..]);
      assert a == [a[0]] + a[1..] && b == [b[0]] + b[1..];
    }
  }

  /** Index of the first occurrence of c in s. */
  function IndexOf(s: string, c: char): (i: nat)
    requires c in s
    ensures i < |s| && s[i] == c && c !in s[..i]
  {
    if s[0] == c then 0 else 1 + IndexOf(s[1..], c)
  }

  /**
   * Every field between occurrences of the delimiter, empty ones
   * included: the pieces StringTokenizer walks over.
   */
  function Fields(s: string, d: char): (r: seq<string>)
    ensures |r| >= 1
    decreases |s|
  {
    if d !in s then [s]
    else
      var i := IndexOf(s, d);
      [s[..i]] + Fields(s[i + 1..], d)
  }

  function NonEmpty(xs: seq<string>): (r: seq<string>)
    ensures forall i :: 0 <= i < |r| ==> r[i] != []
  {
    if xs == [] then []
    else if xs[0] == [] then NonEmpty(xs[1..])
    else [xs[0]] + NonEmpty(xs[1..])
  }

  /** The tokens java.util.StringTokenizer returns for a one-character delimiter set. */
  function Tokens(s: string, d: char): seq<string>
  {
    NonEmpty(Fields(s, d))
  }

  /** Elements joined with the separator between them and none at either end. */
  function Join(xs: seq<string>, d: char): string
  {
    if xs == [] then []
    else if |xs| == 1 then xs[0]
    else xs[0] + [d] + Join(xs[1..], d)
  }

  /** Joining one more element appends the separator and the element. */
  lemma {:induction false} JoinSnoc(xs: seq<string>, x: string, d: char)
    requires xs != []
    ensures Join(xs + [x], d) == Join(xs, d) + [d] + x
  {
    if |xs| > 1 {
      assert (xs + [x])[1..] == xs[1..] + [x];
      JoinSnoc(xs[1..], x, d);
    } else {
      assert (xs + [x])[1..] == [x];
    }
  }

  /** A character in no element and other than the separator is not in the joined text. */
  lemma {:induction false} JoinFree(xs: seq<string>, d: char, c: char)
    requires c != d && forall i :: 0 <= i < |xs| ==> c !in xs[i]
    ensures c !in Join(xs, d)
  {
    if |xs| > 1 {
      JoinFree(xs[1..], d, c);
    }
  }

  predicate Tokenizable(xs: seq<string>, d: char)
  {
    forall i :: 0 <= i < |xs| ==> xs[i] != [] && d !in xs[i]
  }

  lemma FieldsAfterPiece(x: string, d: char, rest: string)
    requires d !in x
    ensures Fields(x + [d] + rest, d) == [x] + Fields(rest, d)
  {
    var s := x + [d] + rest;
    assert s[..|x|] == x && s[|x|] == d;
    assert s[|x| + 1..] == rest;
  }

  lemma {:induction false} FieldsOfJoin(xs: seq<string>, d: char)
    requires xs != []
    requires forall i :: 0 <= i < |xs| ==> d !in xs[i]
    ensures Fields(Join(xs, d), d) == xs
  {
    if |xs| > 1 {
      FieldsOfJoin(xs[1..], d);
      FieldsAfterPiece(xs[0], d, Join(xs[1..], d));
    }
  }

  /** Splitting a joined list with StringTokenizer gives the list back. */
  lemma TokensOfJoin(xs: seq<string>, d: char)
    requires Tokenizable(xs, d)
    ensures Tokens(Join(xs, d), d) == xs
  {
    if xs != [] {
      FieldsOfJoin(xs, d);
      NonEmptyKeeps(xs);
      assert Tokens(Join(xs, d), d) == NonEmpty(Fields(Join(xs, d), d));
    } else {
      assert Fields([], d) == [[]];
      assert NonEmpty([[]]) == NonEmpty([]);
    }
  }

  lemma {:induction false} NonEmptyKeeps(xs: seq<string>)
    requires forall i :: 0 <= i < |xs| ==> xs[i] != []
    ensures NonEmpty(xs) == xs
  {
    if xs != [] {
      NonEmptyKeeps(xs[1..]);
    }
  }

  /** No token contains the delimiter: a tokenised list joins back losslessly. */
  lemma {:induction false} TokensAreTokenizable(s: string, d: char)
    ensures Tokenizable(Tokens(s, d), d)
  {
    FieldsFree(s, d);
    NonEmptyFree(Fields(s, d), d);
  }

  lemma {:induction false} FieldsFree(s: string, d: char)
    ensures forall i :: 0 <= i < |Fields(s, d)| ==> d !in Fields(s, d)[i]
    decreases |s|
  {
    if d in s {
      var i := IndexOf(s, d);
      FieldsFree(s[i + 1..], d);
    }
  }

  lemma {:induction false} NonEmptyFree(xs: seq<string>, d: char)
    requires forall i :: 0 <= i < |xs| ==> d !in xs[i]
    ensures forall i :: 0 <= i < |NonEmpty(xs)| ==> d !in NonEmpty(xs)[i]
  {
    if xs != [] {
      NonEmptyFree(xs[1..], d);
    }
  }

  /**
   * Java's line.split(sep, 2): the text before the first separator and
   * the rest, or None when the separator does not occur.
   */
  function SplitFirst(line: string, sep: char): (r: Option<(string, string)>)
    ensures r.None? <==> sep !in line
    ensures r.Some? ==> line == r.value.0 + [sep] + r.value.1 && sep !in r.value.0
  {
    if sep !in line then None
    else
      var i := IndexOf(line, sep);
      assert line == line[..i] + [sep] + line[i + 1..];
      Some((line[..i], line[i + 1..]))
  }

  lemma SplitFirstOfJoined(key: string, sep: char, value: string)
    requires sep !in key
    ensures SplitFirst(key + [sep] + value, sep) == Some((key, value))
  {
    var line := key + [sep] + value;
    assert line[..|key|] == key && line[|key|] == sep;
    assert line[|key| + 1..] == value;
  }

  datatype Option<T> = None | Some(value: T)
  {
    function GetOr(default: T): T
    {
      if Some? then value else default
    }
  }
}

// Java's fixed-width integer arithmetic, where the source depends on it.
module JavaInt {
  const INT_MIN := -0x8000_0000
  const INT_MAX := 0x7fff_ffff
  const LONG_MIN := -0x8000_0000_0000_0000
  const LONG_MAX := 0x7fff_ffff_ffff_ffff

  newtype Int32 = x: int | -0x8000_0000 <= x < 0x8000_0000

  /** The value an int expression of exact value x takes in Java (two's complement wrap-around). */
  function Wrap32(x: int): (r: int)
    ensures INT_MIN <= r <= INT_MAX
    ensures INT_MIN <= x <= INT_MAX ==> r == x
    ensures (r - x) % 0x1_0000_0000 == 0
  {
    (x + 0x8000_0000) % 0x1_0000_0000 - 0x8000_0000
  }

  /** The same for long. */
  function Wrap64(x: int): (r: int)
    ensures LONG_MIN <= r <= LONG_MAX
    ensures LONG_MIN <= x <= LONG_MAX ==> r == x
    ensures (r - x) % 0x1_0000_0000_0000_0000 == 0
  {
    (x + 0x8000_0000_0000_0000) % 0x1_0000_0000_0000_0000 - 0x8000_0000_0000_0000
  }
}
