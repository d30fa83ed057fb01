/** The driver binding (src/cuda.rs). */
module Cuda {
  import opened Wrappers
  import opened Native
  import opened Extra
  import opened Loader
  import opened Decode

  /** The entry points the binding resolves, in the order it asks for them. */
  const CudaSymbols: seq<string> :=
    ["cuDriverGetVersion", "cuGetErrorName", "cuGetErrorString", "cuInit", "cuDeviceGetCount"]

  /** `RawLibcuda`: one resolved symbol per required entry point. */
  datatype RawLibcuda = RawLibcuda(
    cuDriverGetVersion: Symbol,
    cuGetErrorName: Symbol,
    cuGetErrorString: Symbol,
    cuInit: Symbol,
    cuDeviceGetCount: Symbol)
  {
    /** The names the fields were resolved under, in field order. */
    function Names(): seq<string> {
      [cuDriverGetVersion.name, cuGetErrorName.name, cuGetErrorString.name,
       cuInit.name, cuDeviceGetCount.name]
    }

    /** `RawLibcuda::open`: each `lib.get(..)?` returns early on failure, so
        a binding exists exactly when every name is exported, each field holds
        the symbol of its own name, and otherwise the error is that of the
        first name that is missing. */
    static function Open(lib: Library): (r: Result<RawLibcuda, LoadError>)
      ensures r.Ok? <==> ExportsAll(lib, CudaSymbols)
      ensures r.Ok? ==> r.value.Names() == CudaSymbols
      ensures r.Err? ==> FirstMissing(lib, CudaSymbols) < |CudaSymbols|
                         && r.error == SymbolNotFound(CudaSymbols[FirstMissing(lib, CudaSymbols)])
    {
      SymbolsSpelledOut();
      var cuDriverGetVersion :- lib.Get("cuDriverGetVersion");
      var cuGetErrorName :- lib.Get("cuGetErrorName");
      var cuGetErrorString :- lib.Get("cuGetErrorString");
      var cuInit :- lib.Get("cuInit");
      var cuDeviceGetCount :- lib.Get("cuDeviceGetCount");
      Ok(RawLibcuda(cuDriverGetVersion, cuGetErrorName, cuGetErrorString, cuInit, cuDeviceGetCount))
    }
  }

  lemma SymbolsSpelledOut()
    ensures CudaSymbols[0] == "cuDriverGetVersion" && CudaSymbols[1] == "cuGetErrorName"
    ensures CudaSymbols[2] == "cuGetErrorString" && CudaSymbols[3] == "cuInit"
    ensures CudaSymbols[4] == "cuDeviceGetCount" && |CudaSymbols| == 5
  {
  }

  /** Names a library exports beyond the required ones never change the
      outcome of opening it. */
  lemma OpenIgnoresOtherExports(a: Library, b: Library)
    requires forall i | 0 <= i < |CudaSymbols| :: CudaSymbols[i] in a.exports <==> CudaSymbols[i] in b.exports
    ensures RawLibcuda.Open(a) == RawLibcuda.Open(b)
  {
    SymbolsSpelledOut();
  }

  /** `Libcuda`: the safe wrapper around the raw binding. */
  datatype Libcuda = Libcuda(raw: RawLibcuda) {

    /** `Libcuda::open`: the raw open, with its error passed on unchanged. */
    static function Open(lib: Library): (r: Result<Libcuda, LoadError>)
      ensures r.Ok? <==> ExportsAll(lib, CudaSymbols)
      ensures r.Ok? ==> RawLibcuda.Open(lib) == Ok(r.value.raw)
      ensures r.Err? ==> RawLibcuda.Open(lib) == Err(r.error)
    {
      var raw :- RawLibcuda.Open(lib);
      Ok(Libcuda(raw))
    }

    /** `Libcuda::version`. The call to `cuDriverGetVersion` is replaced by
        what it returns: its status and the value it wrote through the
        pointer. A non-zero status is returned as the error, undecoded;
        status 0 decodes the value with the driver/runtime scheme. */
    function Version(status: CInt, rawVersion: CInt): (r: Result<Extra.Version, CInt>)
      ensures r.Err? <==> status != 0
      ensures r.Err? ==> r.error == status
      ensures r.Ok? ==> r.value.patch == 0
      ensures r.Ok? && rawVersion >= 0 ==>
                r.value.major == rawVersion / 1000 && r.value.minor == (rawVersion % 1000) / 10
      ensures r.Ok? ==> r.value == DriverScheme(rawVersion)
    {
      if status != 0 then Err(status)
      else Ok(DriverScheme(rawVersion))
    }
  }

  lemma VersionExamples(cuda: Libcuda)
    ensures cuda.Version(0, 11020) == Ok(Extra.Version(11, 2, 0))
    ensures cuda.Version(0, 9010) == Ok(Extra.Version(9, 1, 0))
    ensures cuda.Version(100, 11020) == Err(100)
  {
    DriverSchemeExamples();
  }
}
