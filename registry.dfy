/** The process-wide slots of src/lib.rs, one per library: the library file
    is loaded (`Library::new(..).ok()`), and the binding is opened on it
    (`.and_then(|lib| open(lib).ok())`). Loading the file is a parameter:
    `None` when the loader could not find or load it. */
module Registry {
  import opened Wrappers
  import opened Loader
  import opened Cuda
  import opened Cudart
  import opened Cudnn

  /** The `CUDA` slot: a binding exactly when the library loaded and exports
      every driver entry point; a failure is never surfaced as an error. */
  function CudaSlot(loaded: Option<Library>): (r: Option<Libcuda>)
    ensures r.Some? <==> loaded.Some? && ExportsAll(loaded.value, CudaSymbols)
    ensures r.Some? ==> Libcuda.Open(loaded.value) == Ok(r.value)
  {
    match loaded
    case None => None
    case Some(lib) => Libcuda.Open(lib).ToOption()
  }

  /** The `CUDART` slot. */
  function CudartSlot(loaded: Option<Library>): (r: Option<Libcudart>)
    ensures r.Some? <==> loaded.Some? && ExportsAll(loaded.value, CudartSymbols)
    ensures r.Some? ==> Libcudart.Open(loaded.value) == Ok(r.value)
  {
    match loaded
    case None => None
    case Some(lib) => Libcudart.Open(lib).ToOption()
  }

  /** The `CUDNN` slot. */
  function CudnnSlot(loaded: Option<Library>): (r: Option<Libcudnn>)
    ensures r.Some? <==> loaded.Some? && ExportsAll(loaded.value, CudnnSymbols)
    ensures r.Some? ==> Libcudnn.Open(loaded.value) == Ok(r.value)
  {
    match loaded
    case None => None
    case Some(lib) => Libcudnn.Open(lib).ToOption()
  }
}
