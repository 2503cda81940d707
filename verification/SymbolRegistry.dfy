/** The symbol registry: a guest export overrides a high-level emulation (HLE) binding, and nothing else is replaced. */
module SymbolRegistry {
  import opened Base

  datatype Key = Key(nid: string, library: string, owner: string, libraryVersion: nat, major: nat, minor: nat,
                     kind: nat)

  datatype Binding = Binding(address: U64, name: string, hle: bool)

  type Symbols = map<Key, Binding>

  predicate Accepts(s: Symbols, k: Key, b: Binding) { k !in s || (s[k].hle && !b.hle) }

  function Registered(s: Symbols, k: Key, b: Binding): Symbols { if Accepts(s, k, b) then s[k := b] else s }

  datatype Registration = Registration(key: Key, binding: Binding)

  function After(history: seq<Registration>): Symbols {
    if history == [] then map[]
    else var r := history[|history| - 1]; Registered(After(history[..|history| - 1]), r.key, r.binding)
  }

  function Lookup(s: Symbols, k: Key): Option<Binding> { if k in s then Some(s[k]) else None }

  class Registry {
    var symbols: Symbols

    constructor ()
      ensures symbols == map[]
    {
      symbols := map[];
    }

    /** register_symbol. */
    method Register(k: Key, b: Binding) returns (changed: bool)
      modifies this
      ensures symbols == Registered(old(symbols), k, b) && changed == Accepts(old(symbols), k, b)
    {
      if k !in symbols {
        symbols := symbols[k := b];
        return true;
      }
      if symbols[k].hle && !b.hle {
        symbols := symbols[k := b];
        return true;
      }
      return false;
    }
  }

  /** The first registration of a key of the given sort. */
  function First(history: seq<Registration>, k: Key, hle: bool): (f: Option<Binding>)
    ensures f.Some? ==> f.value.hle == hle
  {
    if history == [] then None
    else
      var earlier, r := First(history[..|history| - 1], k, hle), history[|history| - 1];
      if earlier.Some? then earlier else if r.key == k && r.binding.hle == hle then Some(r.binding) else None
  }

  /** After any history a key resolves to its first guest export if it has one, else to its first HLE binding. */
  lemma {:induction false} ResolvesToFirst(history: seq<Registration>, k: Key)
    ensures Lookup(After(history), k)
            == if First(history, k, false).Some? then First(history, k, false) else First(history, k, true)
  {
    if history != [] { ResolvesToFirst(history[..|history| - 1], k); }
  }

  /** What resolves once resolves ever after. */
  lemma StillResolves(s: Symbols, k: Key, b: Binding, other: Key)
    requires other in s
    ensures other in Registered(s, k, b)
  {
  }
}
