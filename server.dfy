/**
 * The decision logic of server.js: `POST /api/convert` checks its guards in a
 * fixed order (a file, then both format parameters, then a converter) and
 * only then runs the converter; `GET /api/conversions` lists the registry.
 * The response a handler emits is a `Response` value here.
 */
module Server {
  import opened Wrappers
  import opened BaseConverter
  import opened FileSystem
  import opened ConverterRegistry
  import Converters
  import EpsToSvg
  import Startup

  /** The uploaded file: the base name of its original name, and its contents. */
  datatype UploadedFile = UploadedFile(baseName: string, buffer: Bytes)

  /** A conversion request: `req.file` and the `from`/`to` fields of `req.body`. */
  datatype ConvertRequest = ConvertRequest(file: Option<UploadedFile>, from: Option<string>, to: Option<string>)

  /** What the handler sends. */
  datatype Response =
    | BadRequest(error: string)
    | Unsupported(error: string, availableConversions: seq<Info>)
    | ServerError(error: string)
    | Sent(body: Bytes, contentType: string, contentDisposition: string, contentLength: nat)

  /** The JSON body of `GET /api/conversions`. */
  datatype ConversionsResponse = ConversionsResponse(success: bool, conversions: seq<Info>)

  const NoFileMessage := "No file uploaded"
  const MissingParametersMessage := "Missing required parameters: from and to formats"

  function NoConverterMessage(from: string, to: string): string
  {
    "No converter available for " + from + " to " + to
  }

  function StatusCode(r: Response): int
  {
    match r
    case BadRequest(_) => 400
    case Unsupported(_, _) => 400
    case ServerError(_) => 500
    case Sent(_, _, _, _) => 200
  }

  /** A body field is truthy when it is present and not the empty string. */
  predicate Truthy(v: Option<string>)
  {
    v.Some? && v.value != ""
  }

  function OutputFilename(baseName: string, to: string): string
  {
    baseName + "." + to
  }

  function Disposition(filename: string): string
  {
    "attachment; filename=\"" + filename + "\""
  }

  /** A character Node accepts in a header value: tab, 0x20-0x7E or 0x80-0xFF. */
  predicate HeaderChar(c: char)
  {
    c == '\t' || (' ' <= c <= '~') || ('\U{80}' <= c <= '\U{FF}')
  }

  predicate HeaderValueValid(v: string)
  {
    forall i :: 0 <= i < |v| ==> HeaderChar(v[i])
  }

  /** The error `res.set` throws for a header value holding any other character. */
  function InvalidHeaderMessage(name: string): string
  {
    "Invalid character in header content [\"" + name + "\"]"
  }

  /** Both header values the 200 response sets are acceptable. */
  predicate HeaderSafe(baseName: string, to: string)
  {
    HeaderValueValid("application/" + to) && HeaderValueValid(Disposition(OutputFilename(baseName, to)))
  }

  /**
   * Setting the headers and sending the output. `res.set` sets Content-Type,
   * then Content-Disposition, and throws inside the handler's `try` on the
   * first invalid value, which the `catch` turns into a 500.
   */
  function SendConverted(out: Bytes, baseName: string, to: string): (r: Response)
    ensures r.Sent? <==> HeaderSafe(baseName, to)
    ensures r.Sent? ==> r == Sent(out, "application/" + to, Disposition(OutputFilename(baseName, to)), |out|)
    ensures !HeaderValueValid("application/" + to) ==> r == ServerError(InvalidHeaderMessage("Content-Type"))
    ensures HeaderValueValid("application/" + to) && !HeaderValueValid(Disposition(OutputFilename(baseName, to)))
            ==> r == ServerError(InvalidHeaderMessage("Content-Disposition"))
  {
    var contentType := "application/" + to;
    var disposition := Disposition(OutputFilename(baseName, to));
    if !HeaderValueValid(contentType) then ServerError(InvalidHeaderMessage("Content-Type"))
    else if !HeaderValueValid(disposition) then ServerError(InvalidHeaderMessage("Content-Disposition"))
    else Sent(out, contentType, disposition, |out|)
  }

  /** A concatenation is a valid header value iff both parts are. */
  lemma HeaderValidConcat(a: string, b: string)
    ensures HeaderValueValid(a + b) <==> HeaderValueValid(a) && HeaderValueValid(b)
  {
    if HeaderValueValid(a + b) {
      assert forall i :: 0 <= i < |a| ==> a[i] == (a + b)[i];
      assert forall i :: 0 <= i < |b| ==> b[i] == (a + b)[|a| + i];
    }
  }

  /** The Content-Type value is acceptable exactly when `to` is. */
  lemma ContentTypeValidIff(to: string)
    ensures HeaderValueValid("application/" + to) <==> HeaderValueValid(to)
  {
    var prefix := "application/";
    assert HeaderValueValid(prefix) by {
      forall i | 0 <= i < |prefix| ensures HeaderChar(prefix[i]) {
        assert ' ' <= prefix[i] <= '~';
      }
    }
    HeaderValidConcat(prefix, to);
  }

  /** The request passes every guard and a converter is selected. */
  predicate ReachesConverter(req: ConvertRequest, cs: seq<Converter>)
  {
    req.file.Some? && Truthy(req.from) && Truthy(req.to) && Supported(cs, req.from.value, req.to.value)
  }

  /** The response `POST /api/convert` sends, given the registry and what the converter's environment does. */
  function ConvertResponse(req: ConvertRequest, cs: seq<Converter>, o: EpsToSvg.ToolOracle): Response
  {
    if req.file.None? then BadRequest(NoFileMessage)
    else if !Truthy(req.from) || !Truthy(req.to) then BadRequest(MissingParametersMessage)
    else
      var from, to := req.from.value, req.to.value;
      match FindFirst(cs, from, to)
      case None => Unsupported(NoConverterMessage(from, to), Listing(cs))
      case Some(i) =>
        match Converters.ConvertOutcome(cs[i], req.file.value.buffer, map[], o)
        case Threw(m) => ServerError(m)
        case Converted(out) => SendConverted(out, req.file.value.baseName, to)
  }

  /** The `POST /api/convert` handler. */
  method HandleConvert(registry: ConverterRegistry, fs: FileSystem, req: ConvertRequest, o: EpsToSvg.ToolOracle)
    returns (resp: Response)
    modifies fs
    ensures resp == ConvertResponse(req, registry.converters, o)
    ensures !ReachesConverter(req, registry.converters) ==> fs.paths == old(fs.paths) && fs.trace == old(fs.trace)
    ensures ReachesConverter(req, registry.converters) ==>
      var c := registry.converters[FindFirst(registry.converters, req.from.value, req.to.value).value];
      if c.cls == EpsToSvgConverter
      then fs.trace == old(fs.trace) + EpsToSvg.ConvertTrace(o) && fs.paths == EpsToSvg.FinalPaths(old(fs.paths), o)
      else fs.trace == old(fs.trace) && fs.paths == old(fs.paths)
  {
    if req.file.None? {
      return BadRequest(NoFileMessage);
    }
    if !Truthy(req.from) || !Truthy(req.to) {
      return BadRequest(MissingParametersMessage);
    }
    var from, to := req.from.value, req.to.value;
    var converter := registry.FindConverter(from, to);
    if converter.None? {
      var available := registry.GetAvailableConversions();
      assert available == Listing(registry.converters);
      return Unsupported(NoConverterMessage(from, to), available);
    }
    var outcome := Converters.Convert(converter.value, fs, req.file.value.buffer, map[], o);
    match outcome
    case Threw(m) =>
      resp := ServerError(m);
    case Converted(out) =>
      resp := SendConverted(out, req.file.value.baseName, to);
  }

  /** The `GET /api/conversions` handler. */
  method HandleConversions(registry: ConverterRegistry) returns (resp: ConversionsResponse)
    ensures resp.success && resp.conversions == Listing(registry.converters)
  {
    var conversions := registry.GetAvailableConversions();
    assert conversions == Listing(registry.converters);
    resp := ConversionsResponse(true, conversions);
  }

  /** A missing file is refused first, whatever the parameters, the registry and the environment. */
  lemma MissingFileFirst(req: ConvertRequest, cs: seq<Converter>, o: EpsToSvg.ToolOracle)
    requires req.file.None?
    ensures ConvertResponse(req, cs, o) == BadRequest(NoFileMessage)
    ensures StatusCode(ConvertResponse(req, cs, o)) == 400
  {
  }

  /** With a file, an absent or empty format parameter is refused before any lookup. */
  lemma MissingParametersSecond(req: ConvertRequest, cs: seq<Converter>, o: EpsToSvg.ToolOracle)
    requires req.file.Some? && (!Truthy(req.from) || !Truthy(req.to))
    ensures ConvertResponse(req, cs, o) == BadRequest(MissingParametersMessage)
    ensures ConvertResponse(req, cs, o) == ConvertResponse(req, [], o)
  {
  }

  /** An unsupported pair is refused with the full listing, and no converter runs. */
  lemma UnsupportedListsConversions(req: ConvertRequest, cs: seq<Converter>, o: EpsToSvg.ToolOracle)
    requires req.file.Some? && Truthy(req.from) && Truthy(req.to)
    requires !Supported(cs, req.from.value, req.to.value)
    ensures ConvertResponse(req, cs, o)
         == Unsupported(NoConverterMessage(req.from.value, req.to.value), Listing(cs))
    ensures StatusCode(ConvertResponse(req, cs, o)) == 400
  {
  }

  /**
   * Once a converter is selected the response is 200 exactly when it
   * converts, with the output, a content type and filename built from `to`
   * as sent, and the output's length; otherwise 500 with its message.
   */
  lemma SelectedConverterDecides(req: ConvertRequest, cs: seq<Converter>, o: EpsToSvg.ToolOracle)
    requires ReachesConverter(req, cs)
    ensures var c := cs[FindFirst(cs, req.from.value, req.to.value).value];
      match Converters.ConvertOutcome(c, req.file.value.buffer, map[], o)
      case Threw(m) => ConvertResponse(req, cs, o) == ServerError(m)
      case Converted(out) =>
        ConvertResponse(req, cs, o) == SendConverted(out, req.file.value.baseName, req.to.value)
  {
  }

  /**
   * Status 200 is sent exactly when every guard passes, the selected
   * converter converts, and both header values are acceptable.
   */
  lemma SuccessIff(req: ConvertRequest, cs: seq<Converter>, o: EpsToSvg.ToolOracle)
    ensures StatusCode(ConvertResponse(req, cs, o)) == 200 <==>
      ReachesConverter(req, cs)
      && Converters.ConvertOutcome(cs[FindFirst(cs, req.from.value, req.to.value).value],
                                   req.file.value.buffer, map[], o).Converted?
      && HeaderSafe(req.file.value.baseName, req.to.value)
  {
  }

  /** The Content-Disposition value for a base name is acceptable exactly when the base name is. */
  lemma DispositionValidIff(baseName: string, to: string)
    requires HeaderValueValid(to)
    ensures HeaderValueValid(Disposition(OutputFilename(baseName, to))) <==> HeaderValueValid(baseName)
  {
    var prefix, quote := "attachment; filename=\"", "\"";
    assert HeaderChar('.') && HeaderChar('\"');
    HeaderValidConcat(baseName, ".");
    HeaderValidConcat(baseName + ".", to);
    HeaderValidConcat(prefix, OutputFilename(baseName, to));
    HeaderValidConcat(prefix + OutputFilename(baseName, to), quote);
    assert Disposition(OutputFilename(baseName, to)) == prefix + OutputFilename(baseName, to) + quote;
  }

  /**
   * A request with `to` in upper case still gets its content type and
   * filename from `to` as sent; it is a 500 instead when the base name holds
   * a character no header value may carry.
   */
  lemma UpperCaseTargetKeptVerbatim(file: UploadedFile, o: EpsToSvg.ToolOracle, out: Bytes)
    requires EpsToSvg.ConvertOutcome(o) == Converted(out)
    ensures ConvertResponse(ConvertRequest(Some(file), Some("EPS"), Some("SVG")), Startup.InitialConverters(), o)
         == if HeaderValueValid(file.baseName)
            then Sent(out, "application/SVG", Disposition(file.baseName + ".SVG"), |out|)
            else ServerError(InvalidHeaderMessage("Content-Disposition"))
  {
    var req := ConvertRequest(Some(file), Some("EPS"), Some("SVG"));
    var cs := Startup.InitialConverters();
    Startup.StartupExamples();
    Startup.SingleEpsToSvgConverter();
    SelectedConverterDecides(req, cs, o);
    assert ConvertResponse(req, cs, o) == SendConverted(out, file.baseName, "SVG");
    assert HeaderValueValid("SVG") by {
      assert HeaderChar("SVG"[0]) && HeaderChar("SVG"[1]) && HeaderChar("SVG"[2]);
    }
    ContentTypeValidIff("SVG");
    DispositionValidIff(file.baseName, "SVG");
  }

  /**
   * An upload whose base name is outside Latin-1, such as "\U{4E2D}", gets a
   * 500 even though the conversion succeeded.
   */
  lemma NonLatinBaseNameFails(buffer: Bytes, o: EpsToSvg.ToolOracle, out: Bytes)
    requires EpsToSvg.ConvertOutcome(o) == Converted(out)
    ensures ConvertResponse(ConvertRequest(Some(UploadedFile("\U{4E2D}", buffer)), Some("eps"), Some("svg")),
                            Startup.InitialConverters(), o)
         == ServerError(InvalidHeaderMessage("Content-Disposition"))
    ensures StatusCode(ConvertResponse(ConvertRequest(Some(UploadedFile("\U{4E2D}", buffer)), Some("eps"), Some("svg")),
                                       Startup.InitialConverters(), o)) == 500
  {
    var name := "\U{4E2D}";
    var req := ConvertRequest(Some(UploadedFile(name, buffer)), Some("eps"), Some("svg"));
    var cs := Startup.InitialConverters();
    Startup.StartupExamples();
    Startup.SingleEpsToSvgConverter();
    SelectedConverterDecides(req, cs, o);
    assert ConvertResponse(req, cs, o) == SendConverted(out, name, "svg");
    assert !HeaderValueValid(name) by {
      assert !HeaderChar("\U{4E2D}"[0]);
    }
    assert HeaderValueValid("svg") by {
      assert HeaderChar("svg"[0]) && HeaderChar("svg"[1]) && HeaderChar("svg"[2]);
    }
    ContentTypeValidIff("svg");
    DispositionValidIff("\U{4E2D}", "svg");
  }

  /** With the startup registry, eps to pdf is refused and the listing names eps to svg. */
  lemma StartupRefusesEpsToPdf(file: UploadedFile, o: EpsToSvg.ToolOracle)
    ensures ConvertResponse(ConvertRequest(Some(file), Some("eps"), Some("pdf")), Startup.InitialConverters(), o)
         == Unsupported("No converter available for eps to pdf", [Startup.EpsToSvgInfo()])
  {
    var req := ConvertRequest(Some(file), Some("eps"), Some("pdf"));
    Startup.StartupExamples();
    UnsupportedListsConversions(req, Startup.InitialConverters(), o);
    Startup.StartupListing();
    assert NoConverterMessage("eps", "pdf") == "No converter available for eps to pdf";
  }

  /** With the startup registry, a missing Inkscape becomes a 500 with the install message. */
  lemma StartupWithoutInkscape(file: UploadedFile, o: EpsToSvg.ToolOracle)
    requires !o.inkscapeAvailable
    ensures ConvertResponse(ConvertRequest(Some(file), Some("eps"), Some("svg")), Startup.InitialConverters(), o)
         == ServerError(EpsToSvg.InstallMessage)
  {
    Startup.StartupExamples();
  }
}
