/**
 * The registry (converters/ConverterRegistry.js): an ordered, append-only
 * list of converters, searched front to back.
 */
module ConverterRegistry {
  import opened Wrappers
  import opened BaseConverter
  import Converters

  /**
   * The index of the first converter, in registration order, that supports
   * the pair, or `None` when no converter does. This is what
   * `converters.find(c => c.supports(from, to)) || null` selects.
   */
  function FindFirst(cs: seq<Converter>, from: string, to: string): (r: Option<nat>)
    ensures r.Some? ==> r.value < |cs| && Supports(cs[r.value], from, to)
    ensures r.Some? ==> forall j :: 0 <= j < r.value ==> !Supports(cs[j], from, to)
    ensures r.None? <==> forall j :: 0 <= j < |cs| ==> !Supports(cs[j], from, to)
  {
    if cs == [] then None
    else if Supports(cs[0], from, to) then Some(0)
    else match FindFirst(cs[1..], from, to)
      case None => None
      case Some(i) => Some(i + 1)
  }

  /** `isSupported`, as a function of the registered converters. */
  predicate Supported(cs: seq<Converter>, from: string, to: string)
  {
    FindFirst(cs, from, to).Some?
  }

  /** The listing `getAvailableConversions` returns: one entry per converter, in order. */
  function Listing(cs: seq<Converter>): (r: seq<Info>)
    ensures |r| == |cs|
    ensures forall i :: 0 <= i < |cs| ==> r[i] == Converters.GetInfo(cs[i])
  {
    if cs == [] then [] else [Converters.GetInfo(cs[0])] + Listing(cs[1..])
  }

  class ConverterRegistry {
    var converters: seq<Converter>

    constructor ()
      ensures converters == []
    {
      converters := [];
    }

    /** `register(converter)`: appended at the end, with no deduplication. */
    method Register(c: Converter)
      modifies this
      ensures converters == old(converters) + [c]
    {
      converters := converters + [c];
    }

    /** `findConverter(from, to)`: a linear scan in registration order. */
    method FindConverter(from: string, to: string) returns (r: Option<Converter>)
      ensures r.None? <==> FindFirst(converters, from, to).None?
      ensures r.Some? ==> r.value == converters[FindFirst(converters, from, to).value]
    {
      var i := 0;
      while i < |converters|
        invariant 0 <= i <= |converters|
        invariant forall j :: 0 <= j < i ==> !Supports(converters[j], from, to)
      {
        if Supports(converters[i], from, to) {
          return Some(converters[i]);
        }
        i := i + 1;
      }
      return None;
    }

    /** `getAvailableConversions()`: each converter's `getInfo()`, in registration order. */
    method GetAvailableConversions() returns (infos: seq<Info>)
      ensures |infos| == |converters|
      ensures forall i :: 0 <= i < |converters| ==> infos[i] == Converters.GetInfo(converters[i])
    {
      infos := [];
      for i := 0 to |converters|
        invariant |infos| == i
        invariant forall j :: 0 <= j < i ==> infos[j] == Converters.GetInfo(converters[j])
      {
        infos := infos + [Converters.GetInfo(converters[i])];
      }
    }

    /** `isSupported(from, to)`: some registered converter supports the pair. */
    method IsSupported(from: string, to: string) returns (b: bool)
      ensures b <==> exists i :: 0 <= i < |converters| && Supports(converters[i], from, to)
      ensures b <==> Supported(converters, from, to)
    {
      var found := FindConverter(from, to);
      b := found.Some?;
    }
  }

  /** `isSupported` holds exactly when some registered converter supports the pair. */
  lemma SupportedIff(cs: seq<Converter>, from: string, to: string)
    ensures Supported(cs, from, to) <==> exists i :: 0 <= i < |cs| && Supports(cs[i], from, to)
  {
  }

  /** Of two converters claiming the same pair, the one registered earlier is found. */
  lemma EarlierRegistrationWins(cs: seq<Converter>, i: nat, j: nat, from: string, to: string)
    requires i < j < |cs|
    requires Supports(cs[i], from, to) && Supports(cs[j], from, to)
    ensures FindFirst(cs, from, to).Some? && FindFirst(cs, from, to).value <= i
    ensures FindFirst(cs, from, to) != Some(j)
  {
  }

  /**
   * Registering a converter never changes a lookup that already succeeded;
   * it can only answer a lookup that had failed, and only with itself.
   */
  lemma {:induction false} RegisterKeepsEarlierLookups(cs: seq<Converter>, c: Converter, from: string, to: string)
    ensures FindFirst(cs, from, to).Some? ==> FindFirst(cs + [c], from, to) == FindFirst(cs, from, to)
    ensures FindFirst(cs, from, to).None? ==>
      FindFirst(cs + [c], from, to) == (if Supports(c, from, to) then Some(|cs|) else None)
  {
    if cs != [] {
      assert (cs + [c])[1..] == cs[1..] + [c];
      RegisterKeepsEarlierLookups(cs[1..], c, from, to);
    }
  }

  /** The listing grows by exactly the new converter's entry. */
  lemma {:induction false} RegisterExtendsListing(cs: seq<Converter>, c: Converter)
    ensures Listing(cs + [c]) == Listing(cs) + [Converters.GetInfo(c)]
  {
    var l := Listing(cs + [c]);
    assert forall i :: 0 <= i < |l| ==> l[i] == (Listing(cs) + [Converters.GetInfo(c)])[i];
  }
}
