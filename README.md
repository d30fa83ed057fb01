# kuda: versions and all-or-nothing bindings, modelled in Dafny

The crate gives a program typed access to the versions reported by three
optional native accelerator libraries: the CUDA driver (`libcuda`), the CUDA
runtime (`libcudart`) and cuDNN (`libcudnn`). It has a uniform, totally
ordered `Version` value type. Each library gets a binding that resolves a
fixed list of entry points by name, all of them or none. Each binding then
decodes the single integer a native version query reports into a `Version`.

The model, one module per Rust file:

- `Extra` (`src/extra.rs`): `Version`, Rust's `Ordering`, the hand-written
  `Ord::cmp`, `partial_cmp` and the comparison operators derived from it. It is
  proved to be the lexicographic total order, against an independent `Rank`.
- `Cuda`, `Cudart`, `Cudnn` (`src/cuda.rs`, `src/cudart.rs`, `src/cudnn.rs`):
  the raw symbol records and their `open`, the safe wrappers and their
  version queries. Every native call is replaced by parameters: the status it
  returns and the value it writes or returns.
- `Decode`: the two integer version encodings. The driver/runtime scheme is
  written out four times in the source: three times on a `c_int` (in
  `src/cuda.rs` and twice in `src/cudart.rs`), defined once here as
  `DriverScheme`, and once on a `usize` (in `src/cudnn.rs`), defined here as
  `CudnnRuntimeScheme`. The two forms are proved equal on the values both can
  hold. Each scheme has round-trip and order-preservation lemmas below the
  wrap-around bound. `DriverScheme` and cuDNN's own scheme are also paired with
  their encoders, with round trips in both directions.
- `Native`: `u32`, `c_int` and 64-bit `usize` as integer ranges. It also has
  Rust's truncating signed `/` and `%` and the wrapping `as u32` cast,
  written out explicitly.
- `Loader`: an opened library, seen as the set of names it exports, and
  `Library::get`.
- `Registry` (`src/lib.rs`): each process-wide slot as a function of the
  library-load outcome.
- `Wrappers`: `Option` and `Result`. Dafny's `:-` on `Result` models Rust's `?`.

## Model

| member | source | states |
|---|---|---|
| `Extra.IntCmp` | src/extra.rs:18-28 | `u32::cmp`: `Less`, `Equal` or `Greater` exactly when the first value is smaller, equal or larger |
| `Extra.Version.Cmp` | src/extra.rs:17-34 | `cmp` answers `Equal` exactly when the two versions are field-wise equal, which is the derived `PartialEq` |
| `Extra.CmpIsRankOrder` | src/extra.rs:17-34 | `cmp` orders versions as the integers major·2^64 + minor·2^32 + patch are ordered, so it is the lexicographic order on the triple |
| `Extra.FirstDifferenceDecides` | src/extra.rs:18-32 | the first field in which two versions differ decides the result, compared as `u32` |
| `Extra.MajorAloneDecides` | src/extra.rs:18-22 | when the majors differ, changing minors and patches never changes the result |
| `Extra.CmpAntisymmetric` | src/extra.rs:17-34 | `cmp(b, a)` is the reverse of `cmp(a, b)` |
| `Extra.CmpTransitive` | src/extra.rs:17-34 | `Less` and `Greater` are transitive, and so is "not `Greater`" |
| `Extra.Version.PartialCmp` | src/extra.rs:11-13 | `partial_cmp` is never `None` and always carries `cmp`'s answer |
| `Extra.Version.Lt` | src/extra.rs:10-14 | `<` (the `PartialOrd` default over `partial_cmp`) holds exactly when the rank is smaller |
| `Extra.Version.Le` | src/extra.rs:10-14 | `<=` holds exactly when the rank is not larger |
| `Extra.Version.Gt` | src/extra.rs:10-14 | `>` holds exactly when the rank is larger |
| `Extra.Version.Ge` | src/extra.rs:10-14 | `>=` holds exactly when the rank is not smaller |
| `Extra.OperatorsTotalOrder` | src/extra.rs:10-34 | `<` is irreflexive and transitive; `<=` is reflexive, transitive, antisymmetric and total; exactly one of `<`, `==`, `>` holds |
| `Extra.OrderExamples` | src/extra.rs:17-34 | 2.0.0 > 1.9.9, 1.5.0 > 1.4.9, and 1.0.0 compares `Equal` to itself |
| `Native.TruncDiv` | src/cuda.rs:48-49 | Rust's signed `/` rounds toward zero: it leaves a remainder with the dividend's sign, smaller than the divisor |
| `Native.TruncRem` | src/cuda.rs:49 | Rust's signed `%` is what that division leaves over: it has the dividend's sign and is smaller than the divisor |
| `Native.AsU32` | src/cuda.rs:48-49 | `as u32` gives the 32-bit value congruent modulo 2^32, and keeps a value that already fits |
| `Decode.DriverScheme` | src/cuda.rs:48-51 | for `raw >= 0`: major is `raw / 1000`, minor is `(raw % 1000) / 10` and at most 99, patch is 0 |
| `Decode.DriverSchemeRoundTrip` | src/cuda.rs:48-50 | for `raw >= 0`, major·1000 + minor·10 + `raw % 10` is `raw`: decoding loses only the last digit |
| `Decode.DriverSchemeOfEncode` | src/cudart.rs:45-48 | a version with patch 0 and minor at most 99 that fits in a `c_int` decodes from 1000·major + 10·minor back to itself |
| `Decode.DriverSchemeOrder` | src/cudart.rs:62-65 | for non-negative values, decoded versions compare as the raw values with the last digit dropped |
| `Decode.NegativeDriverValueOutranks` | src/cuda.rs:48-49 | a raw value of -1000 or less wraps to a major of at least 2^32 - 2147483 and outranks every non-negative raw value |
| `Decode.NegativeDriverValueWrapsMinor` | src/cuda.rs:48-49 | a raw value from -999 to -10 keeps major 0 while its negative minor wraps to 2^32 - (-raw)/10; -10 decodes to 0.4294967295.0 |
| `Decode.DriverSchemeExamples` | src/cuda.rs:48-51 | 11020 decodes to 11.2.0 and 9010 to 9.1.0 |
| `Decode.CudnnScheme` | src/cudnn.rs:36-39 | minor is `(raw % 1000) / 100` and at most 9; patch is `raw % 100` and at most 99; major is `raw / 1000` below 1000·2^32 |
| `Decode.CudnnSchemeRoundTrip` | src/cudnn.rs:36-38 | below 1000·2^32, major·1000 + minor·100 + patch is `raw` |
| `Decode.CudnnSchemeOfEncode` | src/cudnn.rs:36-39 | a version with minor at most 9 and patch at most 99 decodes from 1000·major + 100·minor + patch back to itself |
| `Decode.CudnnSchemeOrder` | src/cudnn.rs:36-39 | below 1000·2^32, decoded cuDNN versions compare exactly as the raw values |
| `Decode.CudnnSchemeWraps` | src/cudnn.rs:36 | at 1000·2^32 the `as u32` cast wraps the major, and the value decodes like 0, as 0.0.0 |
| `Decode.CudnnSchemeExamples` | src/cudnn.rs:36-39 | 8904 decodes to 8.9.4 and 8900 to 8.9.0 |
| `Decode.CudnnRuntimeScheme` | src/cudnn.rs:44-47 | patch is 0; minor is `(raw % 1000) / 10` and at most 99; major is `raw / 1000` below 1000·2^32 |
| `Decode.CudnnRuntimeSchemeRoundTrip` | src/cudnn.rs:44-46 | below 1000·2^32, major·1000 + minor·10 + `raw % 10` is `raw`: decoding loses only the last digit |
| `Decode.CudnnRuntimeSchemeOrder` | src/cudnn.rs:44-47 | below 1000·2^32, decoded runtime versions compare as the raw values with the last digit dropped |
| `Decode.CudnnRuntimeAgreesWithDriver` | src/cudnn.rs:44-47 | on values a `c_int` can hold, the runtime-version decoding of cuDNN is the driver/runtime scheme |
| `Decode.CudnnSchemesDiffer` | src/cudnn.rs:37 | 8904 has minor 9 under cuDNN's own scheme and minor 90 under the runtime scheme, so the two decoders differ |
| `Loader.Library.Get` | src/cuda.rs:20-24 | `lib.get(name)` succeeds exactly when the name is exported, with the symbol of that name; otherwise it fails for that name |
| `Loader.FirstMissing` | src/cuda.rs:19-25 | the position of the first required name that is not exported, which is the `?` that returns early; it is the length exactly when every name is exported |
| `Cuda.RawLibcuda.Open` | src/cuda.rs:18-26 | a record exists exactly when all five driver names are exported, and each field holds the symbol of its own name; otherwise the error is the first missing name's, with no partial record |
| `Cuda.OpenIgnoresOtherExports` | src/cuda.rs:18-26 | two libraries that agree on the five required names open to the same result |
| `Cuda.Libcuda.Open` | src/cuda.rs:34-38 | succeeds exactly when the raw open does, wrapping its record; passes its error on unchanged |
| `Cuda.Libcuda.Version` | src/cuda.rs:40-52 | a non-zero status is the error, unchanged; status 0 decodes with the driver/runtime scheme, patch 0 |
| `Cuda.VersionExamples` | src/cuda.rs:40-52 | status 0 with 11020 gives 11.2.0, with 9010 gives 9.1.0; status 100 gives `Err(100)` |
| `Cudart.RawLibcudart.Open` | src/cudart.rs:16-22 | a record exists exactly when all three runtime names are exported, each field holding its own symbol; otherwise the first missing name's error |
| `Cudart.OpenIgnoresOtherExports` | src/cudart.rs:16-22 | two libraries that agree on the three required names open to the same result |
| `Cudart.Libcudart.Open` | src/cudart.rs:31-35 | succeeds exactly when the raw open does; passes its error on unchanged |
| `Cudart.Libcudart.Version` | src/cudart.rs:37-49 | a non-zero status is the error, unchanged; status 0 decodes with the driver/runtime scheme |
| `Cudart.Libcudart.DriverSupportedVersion` | src/cudart.rs:51-66 | the status is looked at first; with status 0 the result is `Ok(None)` exactly when the raw value is 0, else `Some` of what `version` decodes from that value |
| `Cudart.VersionExamples` | src/cudart.rs:51-66 | 11020 gives 11.2.0; 9010 gives `Some(9.1.0)`; raw 0 gives `Ok(None)`; status 35 gives `Err(35)` even with raw 0 |
| `Cudart.ZeroTestIsOnRawValue` | src/cudart.rs:59-65 | raw values 1 to 9 are reported as present, as version 0.0.0: the test is on the raw value, not on the decoded one |
| `Cudnn.RawLibcudnn.Open` | src/cudnn.rs:14-19 | a record exists exactly when both cuDNN names are exported, each field holding its own symbol; otherwise the first missing name's error |
| `Cudnn.OpenIgnoresOtherExports` | src/cudnn.rs:14-19 | two libraries that agree on the two required names open to the same result |
| `Cudnn.Libcudnn.Open` | src/cudnn.rs:28-32 | succeeds exactly when the raw open does; passes its error on unchanged |
| `Cudnn.Libcudnn.Version` | src/cudnn.rs:34-40 | total; minor at most 9, patch at most 99; below 1000·2^32 the version re-encodes to the raw value |
| `Cudnn.Libcudnn.RequiredRuntimeVersion` | src/cudnn.rs:42-48 | total; patch 0, minor at most 99; on values a `c_int` can hold it is the driver/runtime decoding |
| `Cudnn.VersionExamples` | src/cudnn.rs:34-48 | `version` of 8904 is 8.9.4 and of 8900 is 8.9.0; `required_runtime_version` of 8904 is 8.90.0 and of 11020 is 11.2.0 |
| `Wrappers.Result.ToOption` | src/lib.rs:14-26 | `Result::ok`: `Some` exactly when the result is `Ok`, holding its value |
| `Registry.CudaSlot` | src/lib.rs:14-17 | the `CUDA` slot holds a binding exactly when the library loaded and exports every driver name, and that binding is what `Libcuda::open` returns; a failure never surfaces as an error |
| `Registry.CudartSlot` | src/lib.rs:19-22 | the `CUDART` slot, likewise for the runtime names |
| `Registry.CudnnSlot` | src/lib.rs:24-27 | the `CUDNN` slot, likewise for the cuDNN names |

## Left out

- Loading a library file (`Library::new("lib*.so")`): this is operating-system I/O. Its outcome is the `Option<Library>` parameter of the `Registry` slots.
- `lazy_static!` one-time, thread-safe initialisation and memoisation of the slots: this is concurrency and process-global state. Each slot is modelled as the pure function of the load outcome that it memoises.
- The foreign calls through `Symbol` function pointers and their `unsafe extern "C"` signatures. Each call is replaced by its results (status and value) as parameters. A signature mismatch is undefined behaviour and has no model.
- The contents of the loader's `IoError`. A failed lookup is `SymbolNotFound(name)` for the name that was asked for; nothing else about it is modelled.
- `cuInit`, `cuDeviceGetCount`, `cuGetErrorName`, `cuGetErrorString` and `cudaGetErrorString`: they are resolved but never called by the crate, so they appear only as required names and as fields of the raw records.
- The `'lib` lifetimes tying a binding to its library: a Rust memory-safety matter with no behaviour to state.
- `usize` is assumed to be 64 bits wide. The crate also builds for 32-bit targets, where `usize` is 32 bits; there every raw value is below 2^32, so every statement made below 1000·2^32 still applies, and only `Decode.CudnnSchemeWraps` is specific to 64 bits.
