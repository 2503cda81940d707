/** What a link leaves in each word, told by the fields of the relocation, of its symbol and of the registry. */
module LinkedWords {
  import opened Base
  import opened SymbolRegistry
  import opened Linker
  import opened LinkHistory

  /** The address a symbol stands for: its own place in the module if it is local or has a value, else what the
      registry binds its key to. */
  predicate StandsFor(s: Symbols, m: Image, y: Symbol, a: int) {
    if y.bind == Local || y.value != 0 then a == m.base + y.value && a <= U64_MAX
    else (y.bind == Global || y.bind == Weak) && y.key.Some? && y.key.value in s && a == s[y.key.value].address
  }

  /** The symbol stands for nothing yet. */
  predicate Unbound(s: Symbols, m: Image, y: Symbol) {
    if y.bind == Local || y.value != 0 then m.base + y.value > U64_MAX
    else (y.bind != Global && y.bind != Weak) || y.key.None? || y.key.value !in s
  }

  lemma BoundOrNot(s: Symbols, m: Image, y: Symbol)
    ensures Unbound(s, m, y) <==> forall a :: !StandsFor(s, m, y, a)
    ensures forall a, b :: StandsFor(s, m, y, a) && StandsFor(s, m, y, b) ==> a == b
  {
    var a := if y.bind == Local || y.value != 0 || y.key.None? || y.key.value !in s then m.base + y.value
             else s[y.key.value].address;
    assert !Unbound(s, m, y) ==> StandsFor(s, m, y, a);
  }

  /** A relocation that a link refuses to read. */
  predicate Malformed(m: Image, r: Reloc) {
    m.base + r.offset > U64_MAX || r.kind == Unsupported || (Symbolic(r) && r.symbol >= |m.symbols|)
  }

  /** The relocation asks for the word `v`. */
  predicate AsksFor(s: Symbols, m: Image, r: Reloc, v: int)
    requires !Malformed(m, r)
  {
    match r.kind
    case Relative => v == m.base + r.addend
    case DtpMod64 => v == m.tls && m.tls != 0
    case Absolute64 => StandsFor(s, m, m.symbols[r.symbol], v - r.addend)
    case GlobDat => StandsFor(s, m, m.symbols[r.symbol], v)
    case JumpSlot => StandsFor(s, m, m.symbols[r.symbol], v)
    case Unsupported => false
  }

  /** The relocation finds nothing to write: no thread-local module, or a symbol that stands for nothing. */
  predicate Lacks(s: Symbols, m: Image, r: Reloc)
    requires !Malformed(m, r)
  {
    if Symbolic(r) then Unbound(s, m, m.symbols[r.symbol]) else r.kind == DtpMod64 && m.tls == 0
  }

  /** The key under which an unbound symbol gets a thunk, if it is callable. */
  function ThunkKey(m: Image, r: Reloc): Option<Key>
    requires !Malformed(m, r)
  {
    if Symbolic(r) && m.symbols[r.symbol].callable then m.symbols[r.symbol].key else None
  }

  /** The word at `p` after a link: what the relocation asks for, where that fits 64 bits; the thunk of an unbound
      callable symbol; and otherwise what was there. A thunk issued for the word before forwards to what it asks. */
  ghost predicate LinkedAs(l: Link, l': Link, s: Symbols, m: Image, r: Reloc)
    requires GoodLink(l) && GoodLink(l')
  {
    var p := m.base + r.offset;
    && !Malformed(m, r)
    && (forall v: U64 :: AsksFor(s, m, r, v) ==>
          HoldsWord(l'.memory, p, v)
          && (Symbolic(r) && v != 0 && Find(l', p).Some? ==> l'.targets[Find(l', p).value] == v))
    && ((forall v: U64 :: !AsksFor(s, m, r, v)) && !(Lacks(s, m, r) && ThunkKey(m, r).Some?) ==>
          SameWord(l.memory, l'.memory, p))
    && (Lacks(s, m, r) && ThunkKey(m, r).Some? ==>
          match Find(l', p)
          case Some(i) => if l'.records[i].key == ThunkKey(m, r).value then IsThunk(l', p, i)
                          else SameWord(l.memory, l'.memory, p)
          case None => |l'.records| == l'.capacity && SameWord(l.memory, l'.memory, p))
  }

  /** What a relocation wants, in these terms. */
  lemma WantsAsAsked(s: Symbols, m: Image, r: Reloc)
    ensures Wants(s, m, r).Bad? <==> Malformed(m, r)
    ensures !Malformed(m, r) ==>
              match Wants(s, m, r)
              case Plain(v, missing) =>
                && !Symbolic(r) && missing == Lacks(s, m, r) && (missing ==> v.None?)
                && forall w: U64 :: AsksFor(s, m, r, w) <==> v == Some(w)
              case Resolved(v) =>
                Symbolic(r) && !Lacks(s, m, r) && forall w: U64 :: AsksFor(s, m, r, w) <==> v == Some(w)
              case Import(key) =>
                && Symbolic(r) && Lacks(s, m, r) && key == ThunkKey(m, r)
                && forall w: U64 :: !AsksFor(s, m, r, w)
              case Bad => false
  {
    if !Malformed(m, r) && Symbolic(r) { BoundOrNot(s, m, m.symbols[r.symbol]); }
  }

  lemma ThunkLinked(l: Link, s: Symbols, m: Image, r: Reloc, key: Key)
    requires GoodLink(l) && Apply(l, s, m, r).report.Some? && Wants(s, m, r) == Import(Some(key))
    ensures var l', p := Apply(l, s, m, r).link, m.base + r.offset;
            match Find(l', p)
            case Some(i) => if l'.records[i].key == key then IsThunk(l', p, i) else l'.memory == l.memory
            case None => |l'.records| == l'.capacity && l'.memory == l.memory
  {
    var p := m.base + r.offset;
    var (l', thunk) := GetOrCreate(l, p, key);
    if Find(l, p).None? && |l.records| < l.capacity { FindMore(l.records, Record(p, key), p, 0); }
    if thunk.Some? { StoreHolds(l'.memory, p, thunk.value); }
  }

  /** One relocation that does not throw leaves its word as it should be. */
  lemma AppliedAs(l: Link, s: Symbols, m: Image, r: Reloc)
    requires GoodLink(l) && Apply(l, s, m, r).report.Some?
    ensures LinkedAs(l, Apply(l, s, m, r).link, s, m, r)
  {
    WantsAsAsked(s, m, r);
    var p := m.base + r.offset;
    match Wants(s, m, r)
    case Plain(v, _) => if v.Some? { StoreHolds(l.memory, p, v.value); }
    case Resolved(v) => if v.Some? { StoreHolds(BindPatch(l, p, v.value).memory, p, v.value); }
    case Import(key) => if key.Some? { ThunkLinked(l, s, m, r, key.value); }
  }

  /** Relocations of other words before it leave it so. */
  lemma LinkedAsBefore(l0: Link, l: Link, l': Link, s: Symbols, m: Image, r: Reloc)
    requires GoodLink(l0) && GoodLink(l) && GoodLink(l') && LinkedAs(l, l', s, m, r)
    requires SameWord(l0.memory, l.memory, m.base + r.offset)
    ensures LinkedAs(l0, l', s, m, r)
  {
  }

  /** And so do relocations of other words after it. */
  lemma LinkedAsAfter(l: Link, l': Link, l1: Link, s: Symbols, m: Image, r: Reloc)
    requires GoodLink(l) && GoodLink(l') && GoodLink(l1) && LinkedAs(l, l', s, m, r)
    requires SameAt(l', l1, m.base + r.offset)
    ensures LinkedAs(l, l1, s, m, r)
  {
    var p := m.base + r.offset;
    forall v: U64 | AsksFor(s, m, r, v) ensures HoldsWord(l1.memory, p, v) { SameHolds(l'.memory, l1.memory, p, v); }
    if Find(l', p).Some? {
      var i := Find(l', p).value;
      ThunkFits(l', i);
      SameHolds(l'.memory, l1.memory, p, Thunk(l', i));
    }
  }

  lemma FirstLinkedAs(l: Link, s: Symbols, m: Image, rs: seq<Reloc>, first: Link, last: Link)
    requires GoodLink(l) && DistinctPatches(m, rs) && rs != [] && Apply(l, s, m, rs[0]).report.Some?
    requires first == Apply(l, s, m, rs[0]).link && last == ApplyAll(first, s, m, rs[1..]).link
    ensures LinkedAs(l, last, s, m, rs[0])
  {
    AppliedAs(l, s, m, rs[0]);
    ApplyAllElsewhere(first, s, m, rs[1..], PatchAddress(m, rs[0]));
    LinkedAsAfter(l, first, last, s, m, rs[0]);
  }

  lemma LaterLinkedAs(l: Link, s: Symbols, m: Image, r0: Reloc, r: Reloc, first: Link, last: Link)
    requires GoodLink(l) && first == Apply(l, s, m, r0).link && Apart(PatchAddress(m, r), PatchAddress(m, r0))
    requires GoodLink(last) && LinkedAs(first, last, s, m, r)
    ensures LinkedAs(l, last, s, m, r)
  {
    ApplyElsewhere(l, s, m, r0, PatchAddress(m, r));
    LinkedAsBefore(l, first, last, s, m, r);
  }

  /** After a link that does not throw, with words that do not overlap, every word is as it should be: a relative
      relocation's holds the base plus the addend, a module number's the module's, and a symbol's the symbol's
      address, with the addend for an absolute one. */
  lemma {:induction false} LinkedFields(l: Link, s: Symbols, m: Image, rs: seq<Reloc>, k: nat)
    requires GoodLink(l) && DistinctPatches(m, rs) && ApplyAll(l, s, m, rs).report.Some? && k < |rs|
    ensures LinkedAs(l, ApplyAll(l, s, m, rs).link, s, m, rs[k])
    decreases |rs|
  {
    var first := Apply(l, s, m, rs[0]).link;
    var last := ApplyAll(first, s, m, rs[1..]).link;
    if k == 0 {
      FirstLinkedAs(l, s, m, rs, first, last);
    } else {
      LinkedFields(first, s, m, rs[1..], k - 1);
      assert rs[1..][k - 1] == rs[k] && Apart(PatchAddress(m, rs[0]), PatchAddress(m, rs[k]));
      LaterLinkedAs(l, s, m, rs[0], rs[k], first, last);
    }
  }

  ghost predicate AllLinked(l: Link, l': Link, s: Symbols, m: Image)
    requires GoodLink(l) && GoodLink(l')
  {
    forall k :: 0 <= k < |m.relocs| ==> LinkedAs(l, l', s, m, m.relocs[k])
  }

  lemma WholeLink(l: Link, s: Symbols, m: Image)
    requires GoodLink(l)
    ensures var o := ApplyAll(l, s, m, m.relocs);
            o.report.Some? && DistinctPatches(m, m.relocs) ==> AllLinked(l, o.link, s, m)
  {
    var o := ApplyAll(l, s, m, m.relocs);
    if o.report.Some? && DistinctPatches(m, m.relocs) {
      forall k | 0 <= k < |m.relocs| ensures LinkedAs(l, o.link, s, m, m.relocs[k]) {
        LinkedFields(l, s, m, m.relocs, k);
      }
    }
  }

  // ---- Reports and refusals ---------------------------------------------

  /** The relocations that find nothing, in order. */
  function Lacking(s: Symbols, m: Image, rs: seq<Reloc>): seq<Reloc>
    requires forall i :: 0 <= i < |rs| ==> !Malformed(m, rs[i])
    decreases |rs|
  {
    if rs == [] then [] else (if Lacks(s, m, rs[0]) then [rs[0]] else []) + Lacking(s, m, rs[1..])
  }

  lemma {:induction false} LackingIsMissing(s: Symbols, m: Image, rs: seq<Reloc>)
    requires forall i :: 0 <= i < |rs| ==> !Malformed(m, rs[i])
    ensures Lacking(s, m, rs) == MissingIn(s, m, rs)
    decreases |rs|
  {
    if rs != [] {
      WantsAsAsked(s, m, rs[0]);
      LackingIsMissing(s, m, rs[1..]);
    }
  }

  lemma {:induction false} NoneMalformed(l: Link, s: Symbols, m: Image, rs: seq<Reloc>, k: nat)
    requires GoodLink(l) && ApplyAll(l, s, m, rs).report.Some? && k < |rs|
    ensures !Malformed(m, rs[k])
    decreases |rs|
  {
    if k == 0 { WantsAsAsked(s, m, rs[0]); } else { NoneMalformed(Apply(l, s, m, rs[0]).link, s, m, rs[1..], k - 1); }
  }

  /** The report of a link lists exactly the relocations that found nothing, in order. */
  lemma ReportLists(l: Link, s: Symbols, m: Image, rs: seq<Reloc>)
    requires GoodLink(l) && ApplyAll(l, s, m, rs).report.Some?
    ensures forall i :: 0 <= i < |rs| ==> !Malformed(m, rs[i])
    ensures var report := ApplyAll(l, s, m, rs).report.value;
            RelocsOf(report.unresolved) == Lacking(s, m, rs) && report.thunks == Thunked(report.unresolved)
  {
    forall i | 0 <= i < |rs| ensures !Malformed(m, rs[i]) { NoneMalformed(l, s, m, rs, i); }
    ReportIsExact(l, s, m, rs);
    LackingIsMissing(s, m, rs);
  }

  /** The relocation writes its word: a value that fits, or a thunk that the table has or has room for. */
  ghost predicate Stores(l: Link, s: Symbols, m: Image, r: Reloc)
    requires GoodLink(l) && !Malformed(m, r)
  {
    || (exists v: U64 :: AsksFor(s, m, r, v))
    || (Lacks(s, m, r) && ThunkKey(m, r).Some?
        && match Find(l, m.base + r.offset)
           case Some(i) => l.records[i].key == ThunkKey(m, r).value
           case None => |l.records| < l.capacity)
  }

  /** A relocation throws exactly where it is malformed or has to write a word that is not mapped; it counts as
      applied exactly where it writes. */
  lemma ThrowsExactly(l: Link, s: Symbols, m: Image, r: Reloc)
    requires GoodLink(l)
    ensures var report := Apply(l, s, m, r).report;
            && (report.None? <==> Malformed(m, r) || (Stores(l, s, m, r) && m.base + r.offset !in l.memory.words))
            && (report.Some? ==> report.value.applied == if Stores(l, s, m, r) then 1 else 0)
  {
    WantsAsAsked(s, m, r);
  }
}
