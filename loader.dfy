/** The part of the dynamic loader the bindings use: an opened shared library
    and `Library::get`, which resolves one exported name to a symbol. */
module Loader {
  import opened Wrappers

  /** A resolved entry point, known by the name it was looked up under. */
  datatype Symbol = Symbol(name: string)

  /** The loader's error for a failed lookup. It carries the name that was
      asked for; nothing else of the real error is modelled. */
  datatype LoadError = SymbolNotFound(name: string)

  /** An opened library, seen through the names in its export table. */
  datatype Library = Library(exports: set<string>) {

    /** `Library::get`: succeeds exactly when the name is exported. */
    function Get(name: string): (r: Result<Symbol, LoadError>)
      ensures r.Ok? <==> name in exports
      ensures r.Ok? ==> r.value.name == name
      ensures r.Err? ==> r.error == SymbolNotFound(name)
    {
      if name in exports then Ok(Symbol(name)) else Err(SymbolNotFound(name))
    }
  }

  /** Every name in `names` is exported by `lib`. */
  predicate ExportsAll(lib: Library, names: seq<string>) {
    forall i | 0 <= i < |names| :: names[i] in lib.exports
  }

  /** The position of the first name in `names` that `lib` does not export,
      or `|names|` when it exports them all. */
  function FirstMissing(lib: Library, names: seq<string>): (k: nat)
    ensures k <= |names|
    ensures forall j | 0 <= j < k :: names[j] in lib.exports
    ensures k < |names| ==> names[k] !in lib.exports
    ensures k == |names| <==> ExportsAll(lib, names)
  {
    if names == [] || names[0] !in lib.exports then 0
    else 1 + FirstMissing(lib, names[1..])
  }
}
