/** The runtime binding (src/cudart.rs). */
module Cudart {
  import opened Wrappers
  import opened Native
  import opened Extra
  import opened Loader
  import opened Decode

  /** The entry points the binding resolves, in the order it asks for them. */
  const CudartSymbols: seq<string> :=
    ["cudaDriverGetVersion", "cudaRuntimeGetVersion", "cudaGetErrorString"]

  lemma SymbolsSpelledOut()
    ensures CudartSymbols[0] == "cudaDriverGetVersion" && CudartSymbols[1] == "cudaRuntimeGetVersion"
    ensures CudartSymbols[2] == "cudaGetErrorString" && |CudartSymbols| == 3
  {
  }

  /** `RawLibcudart`: one resolved symbol per required entry point. */
  datatype RawLibcudart = RawLibcudart(
    cudaDriverGetVersion: Symbol,
    cudaRuntimeGetVersion: Symbol,
    cudaGetErrorString: Symbol)
  {
    /** The names the fields were resolved under, in field order. */
    function Names(): seq<string> {
      [cudaDriverGetVersion.name, cudaRuntimeGetVersion.name, cudaGetErrorString.name]
    }

    /** `RawLibcudart::open`: all or nothing, each field holding the symbol of
        its own name; the error is that of the first missing name. */
    static function Open(lib: Library): (r: Result<RawLibcudart, LoadError>)
      ensures r.Ok? <==> ExportsAll(lib, CudartSymbols)
      ensures r.Ok? ==> r.value.Names() == CudartSymbols
      ensures r.Err? ==> FirstMissing(lib, CudartSymbols) < |CudartSymbols|
                         && r.error == SymbolNotFound(CudartSymbols[FirstMissing(lib, CudartSymbols)])
    {
      SymbolsSpelledOut();
      var cudaDriverGetVersion :- lib.Get("cudaDriverGetVersion");
      var cudaRuntimeGetVersion :- lib.Get("cudaRuntimeGetVersion");
      var cudaGetErrorString :- lib.Get("cudaGetErrorString");
      Ok(RawLibcudart(cudaDriverGetVersion, cudaRuntimeGetVersion, cudaGetErrorString))
    }
  }

  /** Names a library exports beyond the required ones never change the
      outcome of opening it. */
  lemma OpenIgnoresOtherExports(a: Library, b: Library)
    requires forall i | 0 <= i < |CudartSymbols| :: CudartSymbols[i] in a.exports <==> CudartSymbols[i] in b.exports
    ensures RawLibcudart.Open(a) == RawLibcudart.Open(b)
  {
    SymbolsSpelledOut();
  }

  /** `Libcudart`: the safe wrapper around the raw binding. */
  datatype Libcudart = Libcudart(raw: RawLibcudart) {

    /** `Libcudart::open`: the raw open, with its error passed on unchanged. */
    static function Open(lib: Library): (r: Result<Libcudart, LoadError>)
      ensures r.Ok? <==> ExportsAll(lib, CudartSymbols)
      ensures r.Ok? ==> RawLibcudart.Open(lib) == Ok(r.value.raw)
      ensures r.Err? ==> RawLibcudart.Open(lib) == Err(r.error)
    {
      var raw :- RawLibcudart.Open(lib);
      Ok(Libcudart(raw))
    }

    /** `Libcudart::version`, with the call to `cudaRuntimeGetVersion`
        replaced by its status and the value it wrote. */
    function Version(status: CInt, rawVersion: CInt): (r: Result<Extra.Version, CInt>)
      ensures r.Err? <==> status != 0
      ensures r.Err? ==> r.error == status
      ensures r.Ok? ==> r.value.patch == 0
      ensures r.Ok? && rawVersion >= 0 ==>
                r.value.major == rawVersion / 1000 && r.value.minor == (rawVersion % 1000) / 10
      ensures r.Ok? ==> r.value == DriverScheme(rawVersion)
    {
      if status != 0 then Err(status)
      else Ok(DriverScheme(rawVersion))
    }

    /** `Libcudart::driver_supported_version`, with the call to
        `cudaDriverGetVersion` replaced by its status and the value it wrote.
        The status is looked at first; with status 0 a raw 0 means "no
        version", and any other value is decoded as `version` decodes it. */
    function DriverSupportedVersion(status: CInt, rawVersion: CInt): (r: Result<Option<Extra.Version>, CInt>)
      ensures r.Err? <==> status != 0
      ensures r.Err? ==> r.error == status
      ensures status == 0 ==> (r == Ok(None) <==> rawVersion == 0)
      ensures status == 0 && rawVersion != 0 ==> r == Ok(Some(Version(status, rawVersion).value))
    {
      if status != 0 then Err(status)
      else if rawVersion == 0 then Ok(None)
      else Ok(Some(DriverScheme(rawVersion)))
    }
  }

  lemma VersionExamples(cudart: Libcudart)
    ensures cudart.Version(0, 11020) == Ok(Extra.Version(11, 2, 0))
    ensures cudart.DriverSupportedVersion(0, 9010) == Ok(Some(Extra.Version(9, 1, 0)))
    ensures cudart.DriverSupportedVersion(0, 0) == Ok(None)
    ensures cudart.DriverSupportedVersion(35, 0) == Err(35)
  {
    DriverSchemeExamples();
  }

  /** The zero test is on the raw value, not on the decoded version: a raw
      value from 1 to 9 is reported as present, as version 0.0.0. */
  lemma ZeroTestIsOnRawValue(cudart: Libcudart, rawVersion: CInt)
    requires 0 < rawVersion < 10
    ensures cudart.DriverSupportedVersion(0, rawVersion) == Ok(Some(Extra.Version(0, 0, 0)))
  {
  }
}
