/**
 * Startup registration (converters/index.js): the registry starts empty and
 * receives one EPS-to-SVG converter.
 */
module Startup {
  import Wrappers
  import opened Formats
  import opened BaseConverter
  import opened ConverterRegistry
  import EpsToSvg

  /** The converters registered at startup, in registration order. */
  function InitialConverters(): seq<Converter>
  {
    [EpsToSvg.Create()]
  }

  /** Module load: build the registry and register every converter. */
  method RegisterAll() returns (registry: ConverterRegistry)
    ensures fresh(registry)
    ensures registry.converters == InitialConverters()
  {
    registry := new ConverterRegistry();
    registry.Register(EpsToSvg.Create());
  }

  /** After startup there is exactly one converter, and its pair is (eps, svg). */
  lemma SingleEpsToSvgConverter()
    ensures |InitialConverters()| == 1
    ensures InitialConverters()[0].cls == EpsToSvgConverter
    ensures InitialConverters()[0].fromFormat == "eps" && InitialConverters()[0].toFormat == "svg"
  {
  }

  /** Every converter registered at startup is one JavaScript can build. */
  lemma StartupConvertersConstructed()
    ensures forall i :: 0 <= i < |InitialConverters()| ==> Constructed(InitialConverters()[i])
  {
    NewIsNormalized(EpsToSvgConverter, "eps", "svg");
  }

  /** The startup registry supports a pair exactly when it is eps to svg up to case. */
  lemma StartupSupportedIff(from: string, to: string)
    ensures Supported(InitialConverters(), from, to)
        <==> EqualsIgnoringCase(from, "eps") && EqualsIgnoringCase(to, "svg")
  {
    SupportsIffEqualIgnoringCase(EpsToSvgConverter, "eps", "svg", from, to);
  }

  /** The examples: both spellings of eps/svg are supported, eps/pdf is not. */
  lemma StartupExamples()
    ensures Supported(InitialConverters(), "eps", "svg")
    ensures Supported(InitialConverters(), "EPS", "SVG")
    ensures !Supported(InitialConverters(), "eps", "pdf")
  {
    StartupSupportedIff("EPS", "SVG");
    StartupSupportedIff("eps", "pdf");
    assert LowerChar('d') != LowerChar('v');
  }

  /** The metadata of the startup registry: a single eps-to-svg entry. */
  function EpsToSvgInfo(): Info
  {
    Info("eps", "svg", "EpsToSvgConverter",
         Wrappers.Some(Details(EpsToSvg.Description, [EpsToSvg.Requirement], map[])))
  }

  lemma StartupListing()
    ensures Listing(InitialConverters()) == [EpsToSvgInfo()]
  {
  }
}
