/** The linker and its late-import table as objects. */
module RuntimeLinker {
  import opened Base
  import opened SymbolRegistry
  import opened Linker
  import opened LinkHistory
  import opened LinkedWords

  // ---- Exports ----------------------------------------------------------

  predicate Exported(y: Symbol) { y.value != 0 && (y.bind == Global || y.bind == Weak) && y.key.Some? }

  /** The registry after exporting a module's symbols, and how many changed it unless an address overflows. */
  datatype Exports = Exports(symbols: Symbols, count: Option<nat>)

  function Export(s: Symbols, base: U64, ys: seq<Symbol>): Exports
    decreases |ys|
  {
    if ys == [] then Exports(s, Some(0))
    else if !Exported(ys[0]) then Export(s, base, ys[1..])
    else match AddUnsigned(base, ys[0].value)
      case None => Exports(s, None)
      case Some(address) =>
        var k, b := ys[0].key.value, Binding(address, ys[0].name, false);
        var rest := Export(Registered(s, k, b), base, ys[1..]);
        Exports(rest.symbols, if rest.count.None? then None
                              else Some((if Accepts(s, k, b) then 1 else 0) + rest.count.value))
  }

  /** A guest binding is final. */
  lemma {:induction false} ExportKeepsGuest(s: Symbols, base: U64, ys: seq<Symbol>, k: Key)
    requires k in s && !s[k].hle
    ensures k in Export(s, base, ys).symbols && Export(s, base, ys).symbols[k] == s[k]
    decreases |ys|
  {
    if ys != [] && !Exported(ys[0]) {
      ExportKeepsGuest(s, base, ys[1..], k);
    } else if ys != [] && base + ys[0].value <= U64_MAX {
      ExportKeepsGuest(Registered(s, ys[0].key.value, Binding(base + ys[0].value, ys[0].name, false)), base, ys[1..],
                       k);
    }
  }

  /** Once its symbols are exported, every export of the module resolves, and to guest code. */
  lemma {:induction false} ExportsResolve(s: Symbols, base: U64, ys: seq<Symbol>, i: nat)
    requires Export(s, base, ys).count.Some? && i < |ys| && Exported(ys[i])
    ensures ys[i].key.value in Export(s, base, ys).symbols && !Export(s, base, ys).symbols[ys[i].key.value].hle
    decreases |ys|
  {
    if !Exported(ys[0]) {
      ExportsResolve(s, base, ys[1..], i - 1);
    } else {
      var k, b := ys[0].key.value, Binding(base + ys[0].value, ys[0].name, false);
      if i > 0 { ExportsResolve(Registered(s, k, b), base, ys[1..], i - 1); }
      else { ExportKeepsGuest(Registered(s, k, b), base, ys[1..], k); }
    }
  }

  /** A defined global or weak symbol exports its key. */
  predicate ExportsKey(y: Symbol, k: Key) { y.key == Some(k) && y.value != 0 && (y.bind == Global || y.bind == Weak) }

  /** Exporting throws exactly where an exported address leaves the address space. */
  lemma {:induction false} ExportFits(s: Symbols, base: U64, ys: seq<Symbol>)
    ensures Export(s, base, ys).count.Some?
            <==> forall i, k :: 0 <= i < |ys| && ExportsKey(ys[i], k) ==> base + ys[i].value <= U64_MAX
    decreases |ys|
  {
    if ys != [] {
      assert forall i :: 1 <= i < |ys| ==> ys[i] == ys[1..][i - 1];
      if !Exported(ys[0]) {
        ExportFits(s, base, ys[1..]);
        assert forall k :: !ExportsKey(ys[0], k);
      } else if base + ys[0].value > U64_MAX {
        assert ExportsKey(ys[0], ys[0].key.value);
      } else if base + ys[0].value <= U64_MAX {
        ExportFits(Registered(s, ys[0].key.value, Binding(base + ys[0].value, ys[0].name, false)), base, ys[1..]);
      }
    }
  }

  /** A key that the module does not export keeps its binding, or stays without one. */
  lemma {:induction false} ExportLeaves(s: Symbols, base: U64, ys: seq<Symbol>, k: Key)
    requires forall i :: 0 <= i < |ys| ==> !ExportsKey(ys[i], k)
    ensures Lookup(Export(s, base, ys).symbols, k) == Lookup(s, k)
    decreases |ys|
  {
    if ys != [] {
      assert !ExportsKey(ys[0], k);
      if !Exported(ys[0]) {
        ExportLeaves(s, base, ys[1..], k);
      } else if base + ys[0].value <= U64_MAX {
        ExportLeaves(Registered(s, ys[0].key.value, Binding(base + ys[0].value, ys[0].name, false)), base, ys[1..], k);
      }
    }
  }

  /** The first export of a key binds it, to the module's base plus the symbol's value, unless a guest binding was
      there before. */
  lemma {:induction false} ExportBinds(s: Symbols, base: U64, ys: seq<Symbol>, i: nat, k: Key)
    requires Export(s, base, ys).count.Some? && i < |ys| && ExportsKey(ys[i], k)
    requires forall j :: 0 <= j < i ==> !ExportsKey(ys[j], k)
    ensures base + ys[i].value <= U64_MAX
    ensures Lookup(Export(s, base, ys).symbols, k)
            == Some(if k in s && !s[k].hle then s[k] else Binding(base + ys[i].value, ys[i].name, false))
    decreases |ys|
  {
    ExportFits(s, base, ys);
    if i == 0 {
      ExportKeepsGuest(Registered(s, k, Binding(base + ys[0].value, ys[0].name, false)), base, ys[1..], k);
    } else {
      assert !ExportsKey(ys[0], k) && ys[1..][i - 1] == ys[i];
      assert forall j :: 0 <= j < i - 1 ==> ys[1..][j] == ys[j + 1];
      var s' := if Exported(ys[0]) then Registered(s, ys[0].key.value, Binding(base + ys[0].value, ys[0].name, false))
                else s;
      ExportBinds(s', base, ys[1..], i - 1, k);
      assert Lookup(s', k) == Lookup(s, k);
    }
  }

  /** The keys whose binding changed. */
  function Changed(s: Symbols, s': Symbols): set<Key> { set k | k in s' && (k !in s || s[k] != s'[k]) }

  /** The count is the number of keys whose binding changed. */
  lemma {:induction false} ExportCounts(s: Symbols, base: U64, ys: seq<Symbol>)
    requires Export(s, base, ys).count.Some?
    ensures Export(s, base, ys).count.value == |Changed(s, Export(s, base, ys).symbols)|
    decreases |ys|
  {
    if ys == [] {
      assert Changed(s, s) == {};
    } else if !Exported(ys[0]) {
      ExportCounts(s, base, ys[1..]);
    } else {
      var k, b := ys[0].key.value, Binding(base + ys[0].value, ys[0].name, false);
      var s1 := Registered(s, k, b);
      var s' := Export(s1, base, ys[1..]).symbols;
      ExportCounts(s1, base, ys[1..]);
      if Accepts(s, k, b) {
        ExportKeepsGuest(s1, base, ys[1..], k);
        assert Changed(s, s') == Changed(s1, s') + {k} && k !in Changed(s1, s');
      }
    }
  }

  /** No export of the module would change the registry. */
  ghost predicate Exhausted(s: Symbols, base: U64, ys: seq<Symbol>) {
    forall i :: 0 <= i < |ys| && Exported(ys[i]) && base + ys[i].value <= U64_MAX ==>
      ys[i].key.value in s && !s[ys[i].key.value].hle
  }

  lemma {:induction false} ExhaustedExport(s: Symbols, base: U64, ys: seq<Symbol>)
    requires Exhausted(s, base, ys)
    ensures Export(s, base, ys).symbols == s
            && (Export(s, base, ys).count.Some? ==> Export(s, base, ys).count == Some(0))
    decreases |ys|
  {
    if ys != [] {
      assert Exhausted(s, base, ys[1..]) by {
        forall i | 0 <= i < |ys[1..]| && Exported(ys[1..][i]) && base + ys[1..][i].value <= U64_MAX
          ensures ys[1..][i].key.value in s && !s[ys[1..][i].key.value].hle { assert ys[1..][i] == ys[i + 1]; }
      }
      ExhaustedExport(s, base, ys[1..]);
    }
  }

  /** Exporting a module's symbols again, as relinking does, leaves the registry as it is. */
  lemma ExportIdempotent(s: Symbols, base: U64, ys: seq<Symbol>)
    requires Export(s, base, ys).count.Some?
    ensures Export(Export(s, base, ys).symbols, base, ys) == Exports(Export(s, base, ys).symbols, Some(0))
  {
    var s' := Export(s, base, ys).symbols;
    forall i | 0 <= i < |ys| && Exported(ys[i]) && base + ys[i].value <= U64_MAX
      ensures ys[i].key.value in s' && !s'[ys[i].key.value].hle { ExportsResolve(s, base, ys, i); }
    ExhaustedExport(s', base, ys);
    SameOverflow(s, s', base, ys);
  }

  /** Whether an address overflows does not depend on the registry. */
  lemma {:induction false} SameOverflow(s: Symbols, s': Symbols, base: U64, ys: seq<Symbol>)
    ensures Export(s, base, ys).count.Some? <==> Export(s', base, ys).count.Some?
    decreases |ys|
  {
    if ys != [] {
      if !Exported(ys[0]) {
        SameOverflow(s, s', base, ys[1..]);
      } else if base + ys[0].value <= U64_MAX {
        var k, b := ys[0].key.value, Binding(base + ys[0].value, ys[0].name, false);
        SameOverflow(Registered(s, k, b), Registered(s', k, b), base, ys[1..]);
      }
    }
  }

  /** link_module, and relink: export, then relocate. */
  datatype LinkResult = LinkResult(symbols: Symbols, link: Link, report: Option<Report>)

  function LinkModule(s: Symbols, l: Link, m: Image): (r: LinkResult)
    requires GoodLink(l)
    ensures GoodLink(r.link)
  {
    var e := Export(s, m.base, m.symbols);
    if e.count.None? then LinkResult(e.symbols, l, None)
    else var o := ApplyAll(l, e.symbols, m, m.relocs); LinkResult(e.symbols, o.link, o.report)
  }

  /** Relinking a module with nothing registered in between changes neither registry, memory nor thunks, and gives
      the same report. */
  lemma RelinkChangesNothing(s: Symbols, l: Link, m: Image)
    requires GoodLink(l) && DistinctPatches(m, m.relocs) && LinkModule(s, l, m).report.Some?
    ensures var r := LinkModule(s, l, m); LinkModule(r.symbols, r.link, m) == r
  {
    ExportIdempotent(s, m.base, m.symbols);
    RelinkIdempotent(l, Export(s, m.base, m.symbols).symbols, m, m.relocs);
  }

  lemma SumAssociates(a: Report, b: Report, c: Report)
    ensures Sum(a, Sum(b, c)) == Sum(Sum(a, b), c)
  {
    assert a.unresolved + (b.unresolved + c.unresolved) == (a.unresolved + b.unresolved) + c.unresolved;
  }

  /** The outcome of a link whose first part reported `done`. */
  ghost function Joined(done: Report, rest: Outcome): Outcome {
    Outcome(rest.link, if rest.report.None? then None else Some(Sum(done, rest.report.value)))
  }

  lemma JoinedNothing(o: Outcome)
    ensures Joined(NOTHING, o) == o
  {
    if o.report.Some? { assert [] + o.report.value.unresolved == o.report.value.unresolved; }
  }

  lemma JoinedStep(done: Report, l: Link, s: Symbols, m: Image, i: nat)
    requires GoodLink(l) && i < |m.relocs|
    ensures var first := Apply(l, s, m, m.relocs[i]);
            Joined(done, ApplyAll(l, s, m, m.relocs[i..]))
            == if first.report.None? then first
               else Joined(Sum(done, first.report.value), ApplyAll(first.link, s, m, m.relocs[i + 1..]))
  {
    assert m.relocs[i..][0] == m.relocs[i] && m.relocs[i..][1..] == m.relocs[i + 1..];
    var first := Apply(l, s, m, m.relocs[i]);
    if first.report.Some? {
      var rest := ApplyAll(first.link, s, m, m.relocs[i + 1..]);
      if rest.report.Some? { SumAssociates(done, first.report.value, rest.report.value); }
    }
  }

  // ---- Objects ----------------------------------------------------------

  class LateImportTable {
    const base: int
    const capacity: nat
    var records: seq<Record>
    var targets: seq<U64>

    constructor (base: int, capacity: nat)
      requires 0 < base && base + capacity * THUNK_SIZE <= U64_MAX
      ensures records == [] && targets == seq(capacity, _ => 0) && this.base == base && this.capacity == capacity
    {
      this.base, this.capacity := base, capacity;
      records, targets := [], seq(capacity, _ => 0);
    }

    /** find_by_patch. */
    method FindByPatch(patch: int) returns (r: Option<nat>)
      ensures r == FindFrom(records, patch, 0)
    {
      for i := 0 to |records|
        invariant FindFrom(records, patch, 0) == FindFrom(records, patch, i)
      {
        if records[i].patch == patch { return Some(i); }
      }
      return None;
    }

    ghost function State(memory: Memory): Link
      reads this
    {
      Link(base, capacity, records, targets, memory)
    }

    method GetOrCreateThunk(patch: int, key: Key, ghost memory: Memory) returns (thunk: Option<U64>)
      requires GoodLink(State(memory))
      modifies this
      ensures (State(memory), thunk) == GetOrCreate(old(State(memory)), patch, key)
    {
      var found := FindByPatch(patch);
      if found.Some? {
        var i := found.value;
        ThunkFits(State(memory), i);
        return if records[i].key == key then Some(base + i * THUNK_SIZE) else None;
      }
      if |records| >= capacity { return None; }
      ThunkFits(State(memory), |records|);
      thunk := Some(base + |records| * THUNK_SIZE);
      records := records + [Record(patch, key)];
    }

    method Bind(patch: int, target: U64, ghost memory: Memory) returns (bound: bool)
      requires GoodLink(State(memory))
      modifies this
      ensures State(memory) == BindPatch(old(State(memory)), patch, target)
      ensures bound == (target != 0 && exists i :: 0 <= i < |records| && records[i].patch == patch)
    {
      var found := FindByPatch(patch);
      if found.None? || target == 0 { return false; }
      targets := targets[found.value := target];
      return true;
    }
  }

  class Linking {
    const registry: Registry
    const table: LateImportTable
    var memory: Memory

    constructor (registry: Registry, table: LateImportTable, memory: Memory)
      ensures this.registry == registry && this.table == table && this.memory == memory
    {
      this.registry, this.table, this.memory := registry, table, memory;
    }

    ghost function State(): Link
      reads this, table
    {
      table.State(memory)
    }

    /** register_exports. */
    method RegisterExports(m: Image) returns (count: Option<nat>)
      modifies registry
      ensures Exports(registry.symbols, count) == Export(old(registry.symbols), m.base, m.symbols)
    {
      var n := 0;
      for i := 0 to |m.symbols|
        invariant var all := Export(old(registry.symbols), m.base, m.symbols);
                  var rest := Export(registry.symbols, m.base, m.symbols[i..]);
                  all == Exports(rest.symbols, if rest.count.None? then None else Some(n + rest.count.value))
      {
        var y := m.symbols[i];
        assert m.symbols[i..][0] == y && m.symbols[i..][1..] == m.symbols[i + 1..];
        if y.value == 0 || (y.bind != Global && y.bind != Weak) { continue; }
        if y.key.None? { continue; }
        var address := AddUnsigned(m.base, y.value);
        if address.None? { return None; }
        var changed := registry.Register(y.key.value, Binding(address.value, y.name, false));
        if changed { n := n + 1; }
      }
      return Some(n);
    }

    /** Writes a word of guest memory. */
    method PatchWord(at: int, v: U64) returns (ok: bool)
      modifies this`memory
      ensures ok == (at in old(memory).words) && memory == if ok then StoreWord(old(memory), at, v) else old(memory)
    {
      ok := at in memory.words;
      if ok { memory := StoreWord(memory, at, v); }
    }

    /** The symbol case of relocate: the value to write, whether the symbol is unresolved, and its thunk. */
    method RelocateSymbol(m: Image, r: Reloc) returns (value: Option<U64>, unresolved: bool, thunk: U64)
      requires GoodLink(State()) && Symbolic(r) && r.symbol < |m.symbols| && m.base + r.offset <= U64_MAX
      modifies table
      ensures GoodLink(State())
      ensures match Wants(registry.symbols, m, r)
              case Resolved(v) =>
                && value == v && !unresolved && thunk == 0
                && State() == (if v.None? then old(State()) else BindPatch(old(State()), PatchAddress(m, r), v.value))
              case Import(key) =>
                && unresolved && thunk == (if value.Some? then value.value else 0)
                && (State(), value) == (if key.None? then (old(State()), None)
                                        else GetOrCreate(old(State()), PatchAddress(m, r), key.value))
              case _ => false
    {
      var y := m.symbols[r.symbol];
      var resolved := ResolveSymbol(registry.symbols, m.base, y);
      value, unresolved, thunk := None, false, 0;
      if resolved.Some? {
        value := AddSigned(resolved.value, if r.kind == Absolute64 then r.addend else 0);
        if value.Some? { var _ := table.Bind(m.base + r.offset, value.value, memory); }
      } else {
        unresolved := true;
        if y.callable && y.key.Some? {
          value := table.GetOrCreateThunk(m.base + r.offset, y.key.value, memory);
          if value.Some? { thunk := value.value; }
        }
      }
    }

    /** One relocation. */
    method RelocateOne(m: Image, r: Reloc) returns (report: Option<Report>)
      requires GoodLink(State())
      modifies this`memory, table
      ensures Outcome(State(), report) == Apply(old(State()), registry.symbols, m, r)
    {
      var at := AddUnsigned(m.base, r.offset);
      if at.None? { return None; }
      var value: Option<U64>, unresolved, thunk := None, false, 0;
      match r.kind {
        case Relative => value := AddSigned(m.base, r.addend);
        case DtpMod64 => if m.tls != 0 { value := Some(m.tls); } else { unresolved := true; }
        case Unsupported => return None;
        case _ =>
          if r.symbol >= |m.symbols| { return None; }
          value, unresolved, thunk := RelocateSymbol(m, r);
      }
      var missing := if unresolved then [Unresolved(at.value, r, thunk)] else [];
      if value.None? { return Some(Report(0, 0, missing)); }
      var ok := PatchWord(at.value, value.value);
      return if ok then Some(Report(1, if unresolved then 1 else 0, missing)) else None;
    }

    /** relocate. */
    method Relocate(m: Image) returns (report: Option<Report>)
      requires GoodLink(State())
      modifies this`memory, table
      ensures Outcome(State(), report) == ApplyAll(old(State()), registry.symbols, m, m.relocs)
      ensures report.Some? && DistinctPatches(m, m.relocs) ==>
                GoodLink(State()) && AllLinked(old(State()), State(), registry.symbols, m)
    {
      var total := NOTHING;
      ghost var start, symbols := State(), registry.symbols;
      assert m.relocs[0..] == m.relocs;
      JoinedNothing(ApplyAll(start, symbols, m, m.relocs));
      for i := 0 to |m.relocs|
        invariant GoodLink(State())
        invariant ApplyAll(start, symbols, m, m.relocs) == Joined(total, ApplyAll(State(), symbols, m, m.relocs[i..]))
      {
        JoinedStep(total, State(), symbols, m, i);
        var part := RelocateOne(m, m.relocs[i]);
        if part.None? { return None; }
        total := Sum(total, part.value);
      }
      assert total.unresolved + [] == total.unresolved;
      WholeLink(start, symbols, m);
      return Some(total);
    }

    /** link_module. */
    method Link(m: Image) returns (report: Option<Report>)
      requires GoodLink(State())
      modifies registry, this`memory, table
      ensures LinkResult(registry.symbols, State(), report) == LinkModule(old(registry.symbols), old(State()), m)
    {
      var count := RegisterExports(m);
      if count.None? { return None; }
      report := Relocate(m);
    }
  }
}
