/** The neural-network primitives binding (src/cudnn.rs). */
module Cudnn {
  import opened Wrappers
  import opened Native
  import opened Extra
  import opened Loader
  import opened Decode

  /** The entry points the binding resolves, in the order it asks for them. */
  const CudnnSymbols: seq<string> := ["cudnnGetVersion", "cudnnGetCudartVersion"]

  lemma SymbolsSpelledOut()
    ensures CudnnSymbols[0] == "cudnnGetVersion" && CudnnSymbols[1] == "cudnnGetCudartVersion"
    ensures |CudnnSymbols| == 2
  {
  }

  /** `RawLibcudnn`: one resolved symbol per required entry point. */
  datatype RawLibcudnn = RawLibcudnn(cudnnGetVersion: Symbol, cudnnGetCudartVersion: Symbol) {

    /** The names the fields were resolved under, in field order. */
    function Names(): seq<string> {
      [cudnnGetVersion.name, cudnnGetCudartVersion.name]
    }

    /** `RawLibcudnn::open`: all or nothing, each field holding the symbol of
        its own name; the error is that of the first missing name. */
    static function Open(lib: Library): (r: Result<RawLibcudnn, LoadError>)
      ensures r.Ok? <==> ExportsAll(lib, CudnnSymbols)
      ensures r.Ok? ==> r.value.Names() == CudnnSymbols
      ensures r.Err? ==> FirstMissing(lib, CudnnSymbols) < |CudnnSymbols|
                         && r.error == SymbolNotFound(CudnnSymbols[FirstMissing(lib, CudnnSymbols)])
    {
      SymbolsSpelledOut();
      var cudnnGetVersion :- lib.Get("cudnnGetVersion");
      var cudnnGetCudartVersion :- lib.Get("cudnnGetCudartVersion");
      Ok(RawLibcudnn(cudnnGetVersion, cudnnGetCudartVersion))
    }
  }

  /** Names a library exports beyond the required ones never change the
      outcome of opening it. */
  lemma OpenIgnoresOtherExports(a: Library, b: Library)
    requires forall i | 0 <= i < |CudnnSymbols| :: CudnnSymbols[i] in a.exports <==> CudnnSymbols[i] in b.exports
    ensures RawLibcudnn.Open(a) == RawLibcudnn.Open(b)
  {
    SymbolsSpelledOut();
  }

  /** `Libcudnn`: the safe wrapper around the raw binding. */
  datatype Libcudnn = Libcudnn(raw: RawLibcudnn) {

    /** `Libcudnn::open`: the raw open, with its error passed on unchanged. */
    static function Open(lib: Library): (r: Result<Libcudnn, LoadError>)
      ensures r.Ok? <==> ExportsAll(lib, CudnnSymbols)
      ensures r.Ok? ==> RawLibcudnn.Open(lib) == Ok(r.value.raw)
      ensures r.Err? ==> RawLibcudnn.Open(lib) == Err(r.error)
    {
      var raw :- RawLibcudnn.Open(lib);
      Ok(Libcudnn(raw))
    }

    /** `Libcudnn::version`, with the call to `cudnnGetVersion` replaced by
        the value it returns. Total: there is no error path. */
    function Version(rawVersion: USize): (v: Extra.Version)
      ensures v.minor <= 9 && v.patch <= 99
      ensures rawVersion < 1000 * TWO_32 ==> CudnnEncode(v) == rawVersion
      ensures v == CudnnScheme(rawVersion)
    {
      if rawVersion < 1000 * TWO_32 then CudnnSchemeRoundTrip(rawVersion); CudnnScheme(rawVersion)
      else CudnnScheme(rawVersion)
    }

    /** `Libcudnn::required_runtime_version`, with the call to
        `cudnnGetCudartVersion` replaced by the value it returns. It decodes
        with the driver/runtime scheme, not with cuDNN's own. Total. */
    function RequiredRuntimeVersion(rawVersion: USize): (v: Extra.Version)
      ensures v.patch == 0 && v.minor <= 99
      ensures rawVersion < 0x8000_0000 ==> v == DriverScheme(rawVersion)
      ensures v == CudnnRuntimeScheme(rawVersion)
    {
      if rawVersion < 0x8000_0000 then CudnnRuntimeAgreesWithDriver(rawVersion); CudnnRuntimeScheme(rawVersion)
      else CudnnRuntimeScheme(rawVersion)
    }
  }

  lemma VersionExamples(cudnn: Libcudnn)
    ensures cudnn.Version(8904) == Extra.Version(8, 9, 4)
    ensures cudnn.Version(8900) == Extra.Version(8, 9, 0)
    ensures cudnn.RequiredRuntimeVersion(8904) == Extra.Version(8, 90, 0)
    ensures cudnn.RequiredRuntimeVersion(11020) == Extra.Version(11, 2, 0)
  {
    CudnnSchemeExamples();
  }
}
