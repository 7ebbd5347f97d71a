/**
 * The converter contract (converters/BaseConverter.js): a converter holds one
 * (from, to) format pair, stored lowercased; it answers `supports`, reports
 * its metadata, and the base `convert` always fails.
 */
module BaseConverter {
  import opened Wrappers
  import opened Formats

  newtype byte = x: int | 0 <= x < 256
  type Bytes = seq<byte>

  /**
   * The class a converter object was built from. `AbstractBase` is the base
   * class itself; `Subclass(name)` is any other subclass that only passes its
   * pair to the base constructor and overrides neither `convert` nor `getInfo`.
   */
  datatype ConverterClass = AbstractBase | EpsToSvgConverter | Subclass(className: string)

  /** A converter object: its class and its lowercased format pair. */
  datatype Converter = Converter(cls: ConverterClass, fromFormat: string, toFormat: string)

  /** What `convert` settles to: the output buffer, or the message of the thrown error. */
  datatype Outcome = Converted(output: Bytes) | Threw(message: string)

  /** Extra metadata a subclass merges into `getInfo`. */
  datatype Details = Details(description: string, requirements: seq<string>, options: map<string, string>)

  /** The object `getInfo` returns; `details` is absent for the base version. */
  datatype Info = Info(from: string, to: string, name: string, details: Option<Details>)

  const AbstractMessage := "BaseConverter is abstract and cannot be instantiated directly"
  const NotImplementedMessage := "convert() must be implemented by subclass"

  /** `this.constructor.name`. */
  function ClassName(cls: ConverterClass): string
  {
    match cls
    case AbstractBase => "BaseConverter"
    case EpsToSvgConverter => "EpsToSvgConverter"
    case Subclass(name) => name
  }

  /**
   * The base constructor: refuses the abstract class itself, then lowercases
   * the pair. The EPS class reaches it only through `EpsToSvg.Create`, which
   * always passes ('eps', 'svg').
   */
  function New(cls: ConverterClass, fromFormat: string, toFormat: string): (r: Result<Converter, string>)
    ensures r.Failure? <==> cls == AbstractBase
    ensures r.Failure? ==> r.error == AbstractMessage
    ensures r.Success? ==> r.value.cls == cls
    ensures r.Success? ==> r.value.fromFormat == Lower(fromFormat) && r.value.toFormat == Lower(toFormat)
  {
    if cls == AbstractBase then Failure(AbstractMessage)
    else Success(Converter(cls, Lower(fromFormat), Lower(toFormat)))
  }

  /** The stored pair is already in lowercase form. */
  predicate Normalized(c: Converter)
  {
    IsLower(c.fromFormat) && IsLower(c.toFormat)
  }

  /**
   * `supports(from, to)`: the requested pair, lowercased, equals the stored
   * pair; for a stored pair in lowercase form this is equality ignoring case.
   */
  function Supports(c: Converter, from: string, to: string): (r: bool)
    ensures Normalized(c) ==>
      (r <==> EqualsIgnoringCase(from, c.fromFormat) && EqualsIgnoringCase(to, c.toFormat))
  {
    LowerIdempotent(c.fromFormat);
    LowerIdempotent(c.toFormat);
    LowerEqualIff(from, c.fromFormat);
    LowerEqualIff(to, c.toFormat);
    c.fromFormat == Lower(from) && c.toFormat == Lower(to)
  }

  /**
   * A converter object JavaScript can build: not of the abstract class, with a
   * lowercase pair, and, for the EPS converter, the pair its constructor fixes.
   */
  predicate Constructed(c: Converter)
  {
    c.cls != AbstractBase && Normalized(c)
    && (c.cls == EpsToSvgConverter ==> c.fromFormat == "eps" && c.toFormat == "svg")
  }

  /** The base `convert`: fails whatever the input and options. */
  function Convert(input: Bytes, options: map<string, string>): (r: Outcome)
    ensures r.Threw? && r.message == NotImplementedMessage
  {
    Threw(NotImplementedMessage)
  }

  /** The base `getInfo`: the stored pair and the class name, nothing more. */
  function GetInfo(c: Converter): (r: Info)
    ensures r.from == c.fromFormat && r.to == c.toFormat
    ensures r.name == ClassName(c.cls) && r.details == None
  {
    Info(c.fromFormat, c.toFormat, ClassName(c.cls), None)
  }

  /** Every converter the constructor yields stores a lowercase pair. */
  lemma NewIsNormalized(cls: ConverterClass, fromFormat: string, toFormat: string)
    requires New(cls, fromFormat, toFormat).Success?
    ensures Normalized(New(cls, fromFormat, toFormat).value)
  {
    LowerIdempotent(fromFormat);
    LowerIdempotent(toFormat);
  }

  /** A subclass that passes its own pair to the base constructor yields a buildable converter. */
  lemma SubclassIsConstructed(name: string, fromFormat: string, toFormat: string)
    ensures New(Subclass(name), fromFormat, toFormat).Success?
    ensures Constructed(New(Subclass(name), fromFormat, toFormat).value)
  {
    NewIsNormalized(Subclass(name), fromFormat, toFormat);
  }

  /** A constructed converter supports exactly the pairs equal to its constructor arguments up to case. */
  lemma SupportsIffEqualIgnoringCase(cls: ConverterClass, fromFormat: string, toFormat: string, from: string, to: string)
    requires New(cls, fromFormat, toFormat).Success?
    ensures Supports(New(cls, fromFormat, toFormat).value, from, to)
        <==> EqualsIgnoringCase(from, fromFormat) && EqualsIgnoringCase(to, toFormat)
  {
    LowerEqualIff(from, fromFormat);
    LowerEqualIff(to, toFormat);
  }

  /** Matching ignores the case of the request: lowercasing it first changes nothing. */
  lemma SupportsCaseInsensitive(c: Converter, from: string, to: string)
    ensures Supports(c, from, to) == Supports(c, Lower(from), Lower(to))
  {
    LowerIdempotent(from);
    LowerIdempotent(to);
  }

  /** A constructed converter supports its own stored pair. */
  lemma SupportsOwnPair(cls: ConverterClass, fromFormat: string, toFormat: string)
    requires New(cls, fromFormat, toFormat).Success?
    ensures var c := New(cls, fromFormat, toFormat).value; Supports(c, c.fromFormat, c.toFormat)
  {
    LowerIdempotent(fromFormat);
    LowerIdempotent(toFormat);
  }
}
