/**
 * Late binding of `getInfo` and `convert`: an `EpsToSvgConverter` uses its
 * own overrides, every other subclass inherits the base versions.
 */
module Converters {
  import opened BaseConverter
  import opened FileSystem
  import EpsToSvg

  /** `converter.getInfo()`. */
  function GetInfo(c: Converter): (r: Info)
    ensures r.from == c.fromFormat && r.to == c.toFormat && r.name == ClassName(c.cls)
    ensures r.details.Some? <==> c.cls == EpsToSvgConverter
    ensures c.cls == EpsToSvgConverter ==> r == EpsToSvg.GetInfo(c)
    ensures c.cls != EpsToSvgConverter ==> r == BaseConverter.GetInfo(c)
  {
    if c.cls == EpsToSvgConverter then EpsToSvg.GetInfo(c) else BaseConverter.GetInfo(c)
  }

  /** What `converter.convert(...)` settles to. */
  function ConvertOutcome(c: Converter, input: Bytes, options: map<string, string>, o: EpsToSvg.ToolOracle): (r: Outcome)
    ensures c.cls == EpsToSvgConverter ==> r == EpsToSvg.ConvertOutcome(o)
    ensures c.cls != EpsToSvgConverter ==> r == Threw(NotImplementedMessage)
  {
    if c.cls == EpsToSvgConverter then EpsToSvg.ConvertOutcome(o)
    else BaseConverter.Convert(input, options)
  }

  /** `converter.convert(input, options)`: only the EPS converter touches the file system. */
  method Convert(c: Converter, fs: FileSystem, input: Bytes, options: map<string, string>, o: EpsToSvg.ToolOracle)
    returns (r: Outcome)
    modifies fs
    ensures r == ConvertOutcome(c, input, options, o)
    ensures c.cls == EpsToSvgConverter ==>
      fs.trace == old(fs.trace) + EpsToSvg.ConvertTrace(o) && fs.paths == EpsToSvg.FinalPaths(old(fs.paths), o)
    ensures c.cls != EpsToSvgConverter ==> fs.trace == old(fs.trace) && fs.paths == old(fs.paths)
  {
    if c.cls == EpsToSvgConverter {
      r := EpsToSvg.Convert(fs, input, options, o);
    } else {
      r := BaseConverter.Convert(input, options);
    }
  }
}
