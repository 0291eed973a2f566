// The comparators a DirectoryPoller can sort its listing with: the two
// built-in ones over size and modification time, the chaining of two
// comparators, and the comparator assembled from a textual specification
// such as "size descending; name".

module Comparators {
  import opened Text
  import opened Files
  import opened JavaInt
  import opened Outcomes

  /** What Comparator.compare receives: a File or some other object. */
  datatype Obj = FileObj(path: Path) | OtherObj(className: string)

  /** The read methods of File that the specification language can name. */
  datatype Property =
    | PDirectory | PHidden | PName | PFreeSpace | PTotalSpace | PUsableSpace
    | PLastModified | PLength | PCanRead | PCanWrite

  datatype ValueType = BooleanPrimitive | LongPrimitive | StringClass

  function ReturnType(p: Property): ValueType
  {
    match p
    case PDirectory => BooleanPrimitive
    case PHidden => BooleanPrimitive
    case PCanRead => BooleanPrimitive
    case PCanWrite => BooleanPrimitive
    case PName => StringClass
    case _ => LongPrimitive
  }

  /** Method.getName() of the read method behind a property. */
  function MethodName(p: Property): string
  {
    match p
    case PDirectory => "isDirectory"
    case PHidden => "isHidden"
    case PName => "getName"
    case PFreeSpace => "getFreeSpace"
    case PTotalSpace => "getTotalSpace"
    case PUsableSpace => "getUsableSpace"
    case PLastModified => "lastModified"
    case PLength => "length"
    case PCanRead => "canRead"
    case PCanWrite => "canWrite"
  }

  /**
   * The value of a numeric property. The partition sizes are not part of
   * the disk model and read as 0; no specification can reach them anyway.
   */
  function NumericValue(ns: Nodes, p: Path, prop: Property): int
    requires ReturnType(prop) == LongPrimitive
  {
    match prop
    case PLastModified => LastModified(ns, p)
    case PLength => Length(ns, p)
    case _ => 0
  }

  datatype Comparator =
    | FileSizeComparator(ascending: bool)
    | ModificationTimeComparator(ascending: bool)
    /** GenericFileComparator's per-expression comparator; None when no property was named. */
    | SingleExprComparator(property: Option<Property>, ascending: bool)
    | ChainedComparator(first: Comparator, second: Comparator)

  /** BidirectionalComparator.computeResultFromValue */
  function ComputeResultFromValue(ascending: bool, value: int): (r: int)
    ensures -1 <= r <= 1
    ensures r == 0 <==> value == 0
    ensures ascending ==> (r > 0 <==> value > 0)
    ensures !ascending ==> (r > 0 <==> value < 0)
  {
    if value == 0 then 0 else if value > 0 then (if ascending then 1 else -1) else (if ascending then -1 else 1)
  }

  /** getComparisonValue of the three bidirectional comparators. */
  function ComparisonValue(ns: Nodes, c: Comparator, f1: Path, f2: Path): Result<int>
    requires !c.ChainedComparator?
  {
    match c
    case FileSizeComparator(_) => Ok(Wrap64(Length(ns, f1) - Length(ns, f2)))
    case ModificationTimeComparator(_) => Ok(Wrap64(LastModified(ns, f1) - LastModified(ns, f2)))
    case SingleExprComparator(None, _) => Err(NullPointerException)
    case SingleExprComparator(Some(prop), _) =>
      match ReturnType(prop)
      case LongPrimitive => Ok(NumericValue(ns, f1, prop) - NumericValue(ns, f2, prop))
      case StringClass => Ok(CompareTo(Name(f2), Name(f1)))
      case BooleanPrimitive => Err(RuntimeException(UnsupportedBoolean))
  }

  const UnsupportedBoolean := "Unsupported type boolean"
  /** Object.getClass().getName() of a compared object. */
  function ClassName(o: Obj): string
  {
    match o
    case FileObj(_) => "java.io.File"
    case OtherObj(n) => n
  }

  /** The message of checkTypes, which names the classes it received. */
  function InvalidObjects(o1: Obj, o2: Obj): string
  {
    "Invalid object passed for comparison: expected (File, File), received ("
      + ClassName(o1) + ", " + ClassName(o2) + ")"
  }

  /** BidirectionalComparator.compare: two files, or the exception checkTypes raises. */
  function BidirectionalCompare(ns: Nodes, c: Comparator, o1: Obj, o2: Obj): (r: Result<int>)
    requires !c.ChainedComparator?
    ensures r.Ok? ==> -1 <= r.value <= 1
    ensures !(o1.FileObj? && o2.FileObj?) ==> r == Err(RuntimeException(InvalidObjects(o1, o2)))
  {
    if !(o1.FileObj? && o2.FileObj?) then
      Err(RuntimeException(InvalidObjects(o1, o2)))
    else
      match ComparisonValue(ns, c, o1.path, o2.path)
      case Err(e) => Err(e)
      case Ok(v) => Ok(ComputeResultFromValue(c.ascending, v))
  }

  /**
   * Comparator.compare. A bidirectional comparator insists on two files;
   * a chained one consults its second comparator only on a tie of the first.
   */
  function Compare(ns: Nodes, c: Comparator, o1: Obj, o2: Obj): (r: Result<int>)
    ensures r.Ok? && !c.ChainedComparator? ==> -1 <= r.value <= 1
    ensures !c.ChainedComparator? && !(o1.FileObj? && o2.FileObj?) ==> r == Err(RuntimeException(InvalidObjects(o1, o2)))
  {
    if c.ChainedComparator? then
      var r1 := Compare(ns, c.first, o1, o2);
      if r1.Ok? && r1.value == 0 then Compare(ns, c.second, o1, o2) else r1
    else
      BidirectionalCompare(ns, c, o1, o2)
  }

  /** A comparator built only from bidirectional ones answers -1, 0 or 1. */
  lemma {:induction false} CompareIsSign(ns: Nodes, c: Comparator, o1: Obj, o2: Obj)
    ensures Compare(ns, c, o1, o2).Ok? ==> -1 <= Compare(ns, c, o1, o2).value <= 1
  {
    if c.ChainedComparator? {
      CompareIsSign(ns, c.first, o1, o2);
      CompareIsSign(ns, c.second, o1, o2);
    }
  }

  /** Lengths and modification times a long can hold, not negative. */
  predicate LongValued(ns: Nodes)
  {
    forall p :: p in ns ==> 0 <= ns[p].length <= LONG_MAX && 0 <= ns[p].mtime <= LONG_MAX
  }

  /**
   * Swapping the two objects negates the answer and keeps the errors
   * (which is what Collections.sort requires of a comparator).
   */
  lemma {:induction false} CompareAntisymmetric(ns: Nodes, c: Comparator, o1: Obj, o2: Obj)
    requires LongValued(ns)
    ensures Compare(ns, c, o1, o2).Ok? <==> Compare(ns, c, o2, o1).Ok?
    ensures Compare(ns, c, o1, o2).Ok? ==> Compare(ns, c, o2, o1).value == -Compare(ns, c, o1, o2).value
  {
    if c.ChainedComparator? {
      CompareAntisymmetric(ns, c.first, o1, o2);
      CompareAntisymmetric(ns, c.second, o1, o2);
      ChainedAntisymmetric(ns, c.first, c.second, o1, o2);
    } else {
      BidirectionalAntisymmetric(ns, c, o1, o2);
    }
  }

  /** A chain of two antisymmetric comparators is antisymmetric. */
  lemma ChainedAntisymmetric(ns: Nodes, c1: Comparator, c2: Comparator, o1: Obj, o2: Obj)
    requires Compare(ns, c1, o1, o2).Ok? <==> Compare(ns, c1, o2, o1).Ok?
    requires Compare(ns, c1, o1, o2).Ok? ==> Compare(ns, c1, o2, o1).value == -Compare(ns, c1, o1, o2).value
    requires Compare(ns, c2, o1, o2).Ok? <==> Compare(ns, c2, o2, o1).Ok?
    requires Compare(ns, c2, o1, o2).Ok? ==> Compare(ns, c2, o2, o1).value == -Compare(ns, c2, o1, o2).value
    ensures var c := ChainedComparator(c1, c2);
      (Compare(ns, c, o1, o2).Ok? <==> Compare(ns, c, o2, o1).Ok?)
      && (Compare(ns, c, o1, o2).Ok? ==> Compare(ns, c, o2, o1).value == -Compare(ns, c, o1, o2).value)
  {
  }

  /** A bidirectional comparator is antisymmetric on files whose lengths and times a long holds. */
  lemma BidirectionalAntisymmetric(ns: Nodes, c: Comparator, o1: Obj, o2: Obj)
    requires LongValued(ns) && !c.ChainedComparator?
    ensures BidirectionalCompare(ns, c, o1, o2).Ok? <==> BidirectionalCompare(ns, c, o2, o1).Ok?
    ensures BidirectionalCompare(ns, c, o1, o2).Ok? ==> BidirectionalCompare(ns, c, o2, o1).value == -BidirectionalCompare(ns, c, o1, o2).value
  {
    if o1.FileObj? && o2.FileObj? {
      FilesAntisymmetric(ns, c, o1.path, o2.path);
    } else {
      NonFilesRefused(ns, c, o1, o2);
    }
  }

  /** Anything but two files is refused in either order. */
  lemma NonFilesRefused(ns: Nodes, c: Comparator, o1: Obj, o2: Obj)
    requires !c.ChainedComparator? && !(o1.FileObj? && o2.FileObj?)
    ensures BidirectionalCompare(ns, c, o1, o2).Err? && BidirectionalCompare(ns, c, o2, o1).Err?
  {
  }

  lemma FilesAntisymmetric(ns: Nodes, c: Comparator, f1: Path, f2: Path)
    requires LongValued(ns) && !c.ChainedComparator?
    ensures var r, s := BidirectionalCompare(ns, c, FileObj(f1), FileObj(f2)), BidirectionalCompare(ns, c, FileObj(f2), FileObj(f1));
      (r.Ok? <==> s.Ok?) && (r.Ok? ==> s.value == -r.value)
  {
    var v, w := ComparisonValue(ns, c, f1, f2), ComparisonValue(ns, c, f2, f1);
    ValueAntisymmetric(ns, c, f1, f2);
    if v.Ok? {
      ResultNegates(c.ascending, v.value);
    }
  }

  /** Negating the comparison value negates the sign computeResultFromValue reports. */
  lemma ResultNegates(ascending: bool, v: int)
    ensures ComputeResultFromValue(ascending, -v) == -ComputeResultFromValue(ascending, v)
  {
  }

  /** Swapping the files negates the comparison value of a bidirectional comparator. */
  lemma ValueAntisymmetric(ns: Nodes, c: Comparator, f1: Path, f2: Path)
    requires LongValued(ns) && !c.ChainedComparator?
    ensures ComparisonValue(ns, c, f1, f2).Ok? <==> ComparisonValue(ns, c, f2, f1).Ok?
    ensures ComparisonValue(ns, c, f1, f2).Ok? ==> ComparisonValue(ns, c, f2, f1).value == -ComparisonValue(ns, c, f1, f2).value
  {
    match c
    case FileSizeComparator(_) =>
      assert 0 <= Length(ns, f1) <= LONG_MAX && 0 <= Length(ns, f2) <= LONG_MAX;
    case ModificationTimeComparator(_) =>
      assert 0 <= LastModified(ns, f1) <= LONG_MAX && 0 <= LastModified(ns, f2) <= LONG_MAX;
    case SingleExprComparator(_, _) =>
      CompareToAntisymmetric(Name(f1), Name(f2));
  }

  /** A descending comparator answers the opposite of its ascending twin. */
  lemma DescendingReverses(ns: Nodes, c: Comparator, o1: Obj, o2: Obj)
    requires !c.ChainedComparator? && c.ascending
    ensures var r := Compare(ns, c, o1, o2);
      var d := Compare(ns, c.(ascending := false), o1, o2);
      (r.Ok? <==> d.Ok?) && (r.Ok? ==> d.value == -r.value)
  {
    if o1.FileObj? && o2.FileObj? {
      ValueIgnoresDirection(ns, c, o1.path, o2.path);
    } else {
      NonFilesRefused(ns, c, o1, o2);
      NonFilesRefused(ns, c.(ascending := false), o1, o2);
    }
  }

  /** The comparison value does not depend on the direction. */
  lemma ValueIgnoresDirection(ns: Nodes, c: Comparator, f1: Path, f2: Path)
    requires !c.ChainedComparator?
    ensures ComparisonValue(ns, c.(ascending := false), f1, f2) == ComparisonValue(ns, c, f1, f2)
  {
    var c' := c.(ascending := false);
    match c
    case FileSizeComparator(_) =>
    case ModificationTimeComparator(_) =>
    case SingleExprComparator(p, _) => assert c' == SingleExprComparator(p, false);
  }

  /** The first non-zero answer of a list of comparators, 0 when all tie, or the first error. */
  function FirstDecisive(ns: Nodes, cs: seq<Comparator>, o1: Obj, o2: Obj): Result<int>
  {
    if cs == [] then Ok(0)
    else
      var r := Compare(ns, cs[0], o1, o2);
      if r.Ok? && r.value == 0 then FirstDecisive(ns, cs[1..], o1, o2) else r
  }

  /** ChainedComparator(c1, ChainedComparator(c2, ... cn)): the comparators folded from the right. */
  function Chain(cs: seq<Comparator>): Comparator
    requires cs != []
  {
    if |cs| == 1 then cs[0] else ChainedComparator(cs[0], Chain(cs[1..]))
  }

  /** A chain orders lexicographically: the first comparator that does not tie decides. */
  lemma {:induction false} ChainIsLexicographic(ns: Nodes, cs: seq<Comparator>, o1: Obj, o2: Obj)
    requires cs != []
    ensures Compare(ns, Chain(cs), o1, o2) == FirstDecisive(ns, cs, o1, o2)
  {
    if |cs| > 1 {
      ChainIsLexicographic(ns, cs[1..], o1, o2);
    } else {
      assert cs[1..] == [];
    }
  }

  /** toString of a comparator; the built-in ones keep Object's, without the identity hash. */
  function Describe(c: Comparator): (r: Result<string>)
    ensures r.Err? ==> r.error == NullPointerException
    ensures c.FileSizeComparator? || c.ModificationTimeComparator? || (c.SingleExprComparator? && c.property.Some?) ==> r.Ok?
  {
    match c
    case FileSizeComparator(_) => Ok("org.sadun.util.polling.DirectoryPoller$FileSizeComparator@")
    case ModificationTimeComparator(_) => Ok("org.sadun.util.polling.DirectoryPoller$ModificationTimeComparator@")
    case SingleExprComparator(None, _) => Err(NullPointerException)
    case SingleExprComparator(Some(p), asc) =>
      Ok("using file's " + MethodName(p) + " property (" + (if asc then "ascending" else "descending") + ")")
    case ChainedComparator(c1, c2) =>
      match Describe(c1)
      case Err(e) => Err(e)
      case Ok(s1) =>
        match Describe(c2)
        case Err(e) => Err(e)
        case Ok(s2) => Ok(s1 + " then " + s2)
  }

  /** A chain describes itself as its parts joined by " then ". */
  lemma ChainedDescription(c1: Comparator, c2: Comparator, s1: string, s2: string)
    requires Describe(c1) == Ok(s1) && Describe(c2) == Ok(s2)
    ensures Describe(ChainedComparator(c1, c2)) == Ok(s1 + " then " + s2)
  {
  }
}

// GenericFileComparator: a comparator built from a specification of
// ';'-separated expressions, each naming a File property and optionally
// "ascending" or "descending".
module GenericFileComparators {
  import opened Text
  import opened Files
  import opened Outcomes
  import opened Comparators

  /**
   * The property table: the bean properties of java.io.File not excluded
   * by the source, plus the entries it adds by hand. Keys are case-sensitive.
   */
  function PropertyNamed(key: string): (r: Option<Property>)
  {
    if key == "directory" then Some(PDirectory)
    else if key == "hidden" then Some(PHidden)
    else if key == "name" then Some(PName)
    else if key == "freeSpace" then Some(PFreeSpace)
    else if key == "totalSpace" then Some(PTotalSpace)
    else if key == "usableSpace" then Some(PUsableSpace)
    else if key == "lastmodified" then Some(PLastModified)
    else if key == "size" || key == "length" then Some(PLength)
    else if key == "canRead" then Some(PCanRead)
    else if key == "canWrite" then Some(PCanWrite)
    else None
  }

  /** The properties whose table key is all lower case, the only ones a lower-cased token can find. */
  predicate Reachable(p: Property)
  {
    p in {PDirectory, PHidden, PName, PLastModified, PLength}
  }

  lemma LowerKeysAreReachable(key: string)
    ensures IsLower(key) && PropertyNamed(key).Some? ==> Reachable(PropertyNamed(key).value)
  {
    if key == "freeSpace" { assert 'A' <= key[4] <= 'Z'; }
    if key == "totalSpace" { assert 'A' <= key[5] <= 'Z'; }
    if key == "usableSpace" { assert 'A' <= key[6] <= 'Z'; }
    if key == "canRead" || key == "canWrite" { assert 'A' <= key[3] <= 'Z'; }
  }

  /** What parseSpec has set so far: the property to read and the direction. */
  datatype Parsed = Parsed(property: Option<Property>, ascending: bool)

  /** One token of an expression, trimmed and lower-cased. */
  function ParseToken(acc: Parsed, raw: string): Result<Parsed>
  {
    var token := ToLower(Trim(raw));
    if token == "ascending" then Ok(acc.(ascending := true))
    else if token == "descending" then Ok(acc.(ascending := false))
    else
      match PropertyNamed(token)
      case None => Err(IllegalArgumentException)
      case Some(p) => if acc.property.Some? then Err(IllegalArgumentException) else Ok(acc.(property := Some(p)))
  }

  /** parseSpec over the tokens of an expression, from an ascending comparator with no property. */
  function ParseTokens(tokens: seq<string>): (r: Result<Parsed>)
    ensures r.Ok? && r.value.property.Some? ==> Reachable(r.value.property.value)
  {
    if tokens == [] then Ok(Parsed(None, true))
    else
      match ParseTokens(tokens[..|tokens| - 1])
      case Err(e) => Err(e)
      case Ok(acc) =>
        var token := ToLower(Trim(tokens[|tokens| - 1]));
        ToLowerIsLower(Trim(tokens[|tokens| - 1]));
        LowerKeysAreReachable(token);
        ParseToken(acc, tokens[|tokens| - 1])
  }

  /** The comparator of one expression, or why it is refused. */
  function SingleExprOf(spec: string): Result<Comparator>
  {
    match ParseTokens(Tokens(spec, ' '))
    case Err(e) => Err(e)
    case Ok(p) => Ok(SingleExprComparator(p.property, p.ascending))
  }

  /** new SingleExprComparator(spec): parseSpec walks the blank-separated tokens. */
  method NewSingleExprComparator(spec: string) returns (r: Result<Comparator>)
    ensures r == SingleExprOf(spec)
  {
    var tokens := Tokens(spec, ' ');
    var acc := Parsed(None, true);
    var i := 0;
    while i < |tokens|
      invariant 0 <= i <= |tokens|
      invariant ParseTokens(tokens[..i]) == Ok(acc)
    {
      var next := ParseToken(acc, tokens[i]);
      ParseTokensStep(tokens, i);
      if next.Err? {
        ErrorSticks(tokens, i + 1);
        return Err(next.error);
      }
      acc := next.value;
      i := i + 1;
    }
    assert tokens[..i] == tokens;
    r := Ok(SingleExprComparator(acc.property, acc.ascending));
  }

  lemma ParseTokensStep(tokens: seq<string>, i: nat)
    requires i < |tokens|
    ensures ParseTokens(tokens[..i + 1])
         == match ParseTokens(tokens[..i])
            case Err(e) => Err(e)
            case Ok(acc) => ParseToken(acc, tokens[i])
  {
    assert tokens[..i + 1][..i] == tokens[..i];
  }

  /** Once a prefix of the tokens is refused, the whole expression is. */
  lemma {:induction false} ErrorSticks(tokens: seq<string>, k: nat)
    requires k <= |tokens| && ParseTokens(tokens[..k]).Err?
    ensures ParseTokens(tokens) == ParseTokens(tokens[..k])
    decreases |tokens| - k
  {
    if k < |tokens| {
      assert tokens[..k + 1][..k] == tokens[..k];
      ErrorSticks(tokens, k + 1);
    } else {
      assert tokens[..k] == tokens;
    }
  }

  /** The comparator and the text a GenericFileComparator keeps. */
  datatype GenericFileComparator = GenericFileComparator(specification: string, cc: Comparator)

  /** The comparators of the expressions, the first refused expression stopping construction. */
  function ExpressionComparators(exprs: seq<string>): Result<seq<Comparator>>
  {
    if exprs == [] then Ok([])
    else
      match ExpressionComparators(exprs[..|exprs| - 1])
      case Err(e) => Err(e)
      case Ok(cs) =>
        match SingleExprOf(exprs[|exprs| - 1])
        case Err(e) => Err(e)
        case Ok(c) => Ok(cs + [c])
  }

  lemma {:induction false} ExpressionComparatorsLength(exprs: seq<string>)
    requires ExpressionComparators(exprs).Ok?
    ensures |ExpressionComparators(exprs).value| == |exprs|
  {
    if exprs != [] {
      ExpressionComparatorsLength(exprs[..|exprs| - 1]);
    }
  }

  /** What the constructor yields for a specification. */
  function GenericOf(spec: string): Result<GenericFileComparator>
  {
    match ExpressionComparators(Tokens(spec, ';'))
    case Err(e) => Err(e)
    case Ok(cs) => if cs == [] then Err(IndexOutOfBoundsException) else Ok(GenericFileComparator(spec, Chain(cs)))
  }

  /** The first loop of the constructor: one SingleExprComparator per expression. */
  method NewExpressionComparators(exprs: seq<string>) returns (r: Result<seq<Comparator>>)
    ensures r == ExpressionComparators(exprs)
  {
    var comparators: seq<Comparator> := [];
    var i := 0;
    while i < |exprs|
      invariant 0 <= i <= |exprs|
      invariant ExpressionComparators(exprs[..i]) == Ok(comparators)
    {
      assert exprs[..i + 1][..i] == exprs[..i];
      var c := NewSingleExprComparator(exprs[i]);
      if c.Err? {
        assert ExpressionComparators(exprs[..i + 1]) == Err(c.error);
        ExpressionsErrorSticks(exprs, i + 1);
        return Err(c.error);
      }
      comparators := comparators + [c.value];
      i := i + 1;
    }
    assert exprs[..i] == exprs;
    r := Ok(comparators);
  }

  /** The second loop of the constructor: the list folded from its end into ChainedComparators. */
  method ChainComparators(cs: seq<Comparator>) returns (cc: Comparator)
    requires cs != []
    ensures cc == Chain(cs)
  {
    cc := cs[|cs| - 1];
    var j := |cs| - 2;
    while j >= 0
      invariant -1 <= j <= |cs| - 2
      invariant cc == Chain(cs[j + 1..])
    {
      cc := ChainedComparator(cs[j], cc);
      assert cs[j..][1..] == cs[j + 1..];
      j := j - 1;
    }
    assert cs[0..] == cs;
  }

  /** The constructor: the expressions are the ';'-tokens of the specification; none at all is an error. */
  method NewGenericFileComparator(spec: string) returns (r: Result<GenericFileComparator>)
    ensures r == GenericOf(spec)
  {
    var comparators := NewExpressionComparators(Tokens(spec, ';'));
    if comparators.Err? {
      return Err(comparators.error);
    }
    if |comparators.value| == 0 {
      return Err(IndexOutOfBoundsException);
    }
    var cc := ChainComparators(comparators.value);
    r := Ok(GenericFileComparator(spec, cc));
  }

  lemma {:induction false} ExpressionsErrorSticks(exprs: seq<string>, k: nat)
    requires k <= |exprs| && ExpressionComparators(exprs[..k]).Err?
    ensures ExpressionComparators(exprs) == ExpressionComparators(exprs[..k])
    decreases |exprs| - k
  {
    if k < |exprs| {
      assert exprs[..k + 1][..k] == exprs[..k];
      ExpressionsErrorSticks(exprs, k + 1);
    } else {
      assert exprs[..k] == exprs;
    }
  }

  /** compare delegates to the chain, which orders by the expressions in turn. */
  lemma GenericIsLexicographic(ns: Nodes, spec: string, o1: Obj, o2: Obj)
    requires GenericOf(spec).Ok?
    ensures var cs := ExpressionComparators(Tokens(spec, ';')).value;
      Compare(ns, GenericOf(spec).value.cc, o1, o2) == FirstDecisive(ns, cs, o1, o2)
  {
    ChainIsLexicographic(ns, ExpressionComparators(Tokens(spec, ';')).value, o1, o2);
  }

  /** A specification with no expression at all makes the constructor fail. */
  lemma NoExpressionFails(spec: string)
    requires Tokens(spec, ';') == []
    ensures GenericOf(spec) == Err(IndexOutOfBoundsException)
  {
  }

  /** getSpecification hands back the text the comparator was built from. */
  lemma SpecificationKept(spec: string)
    requires GenericOf(spec).Ok?
    ensures GenericOf(spec).value.specification == spec
  {
  }

  /**
   * "name" orders names in descending String order: the lexical value is
   * taken with the operands swapped.
   */
  lemma NameOrderIsReversed(ns: Nodes, f1: Path, f2: Path)
    ensures var r := Compare(ns, SingleExprComparator(Some(PName), true), FileObj(f1), FileObj(f2));
      r.Ok? && (r.value > 0 <==> CompareTo(Name(f1), Name(f2)) < 0)
  {
    CompareToAntisymmetric(Name(f1), Name(f2));
  }

  /** A boolean property is accepted when parsed but fails every comparison. */
  lemma BooleanPropertyFailsToCompare(ns: Nodes, p: Property, asc: bool, f1: Path, f2: Path)
    requires ReturnType(p) == BooleanPrimitive
    ensures Compare(ns, SingleExprComparator(Some(p), asc), FileObj(f1), FileObj(f2)).Err?
  {
  }

  /** An expression naming no property (blanks only, or only a direction) leaves no method to call. */
  lemma NoPropertyFailsToCompare(ns: Nodes, asc: bool, f1: Path, f2: Path)
    ensures Compare(ns, SingleExprComparator(None, asc), FileObj(f1), FileObj(f2)) == Err(NullPointerException)
    ensures Describe(SingleExprComparator(None, asc)) == Err(NullPointerException)
  {
  }

  /** Whether a raw token, once trimmed and lower-cased, names a property. */
  function PropertyOfToken(raw: string): Option<Property>
  {
    var token := ToLower(Trim(raw));
    if token == "ascending" || token == "descending" then None else PropertyNamed(token)
  }

  /** An expression that is one property token reads that property, ascending. */
  lemma SinglePropertyToken(t: string)
    requires PropertyOfToken(t).Some?
    ensures ParseTokens([t]) == Ok(Parsed(PropertyOfToken(t), true))
  {
    ParseTokensStep([t], 0);
    assert [t][..0] == [] && [t][..1] == [t];
  }

  /** An expression may name a property once only, the same one included. */
  lemma SecondPropertyRefused(a: string, b: string)
    requires PropertyOfToken(a).Some? && PropertyOfToken(b).Some?
    ensures ParseTokens([a, b]) == Err(IllegalArgumentException)
  {
    SinglePropertyToken(a);
    ParseTokensStep([a, b], 1);
    assert [a, b][..1] == [a];
    assert [a, b][..2] == [a, b];
  }

  /** A token that is neither a direction nor a key of the table refuses the expression. */
  lemma UnknownTokenRefused(t: string)
    requires var token := ToLower(Trim(t));
      token != "ascending" && token != "descending" && PropertyNamed(token).None?
    ensures ParseTokens([t]) == Err(IllegalArgumentException)
  {
    ParseTokensStep([t], 0);
    assert [t][..0] == [] && [t][..1] == [t];
  }
}
