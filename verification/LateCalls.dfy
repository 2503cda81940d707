/** Calls through the words and thunks of late imports, on the machine. */
module LateCalls {
  import opened Base
  import opened SymbolRegistry
  import opened Linker
  import opened LinkHistory
  import X86
  import T = LateThunk
  import E = TcbEquivalence

  /** The place of the thunk table: `codeSize` bytes of thunks at `base`, then a target and a counter for each of
      them. */
  ghost predicate Layout(l: Link, codeSize: nat) {
    && 0 <= l.base && 32 * l.capacity <= codeSize && codeSize + 16 * l.capacity < 0x8000_0000
    && l.base + codeSize + 16 * l.capacity < 0x8000_0000_0000_0000
  }

  function Code(l: Link, i: nat): int { l.base + 32 * i }
  function Data(l: Link, codeSize: nat, i: nat): int { l.base + codeSize + 16 * i }

  /** Machine memory realises the table: every thunk is in place, and beside it stands its target. */
  ghost predicate Realised(l: Link, codeSize: nat, mem: X86.Memory)
    requires Layout(l, codeSize) && |l.targets| == l.capacity
  {
    forall i :: 0 <= i < l.capacity ==> RealisedAt(l, codeSize, mem, i)
  }

  ghost predicate RealisedAt(l: Link, codeSize: nat, mem: X86.Memory, i: nat)
    requires Layout(l, codeSize) && |l.targets| == l.capacity && i < l.capacity
  {
    var code, data := Code(l, i), Data(l, codeSize, i);
    && T.MakeThunk(code, data).Some? && X86.CodeAt(mem, code, T.MakeThunk(code, data).value)
    && X86.Load64(mem, data) == l.targets[i]
  }

  /** Jumping to a thunk with a target arrives there; only r11 and the flags change. */
  lemma ThunkReaches(l: Link, codeSize: nat, m: T.Machine, i: nat)
    requires Layout(l, codeSize) && |l.targets| == l.capacity && i < l.capacity && Realised(l, codeSize, m.cpu.mem)
    requires m.cpu.rip == Code(l, i) && l.targets[i] != 0
    ensures var v := l.targets[i];
            T.Ticks(T.Clock(X86.Decode), m, 4)
            == Some(m.(cpu := m.cpu.(regs := m.cpu.regs[X86.R11 := v], flags := X86.LogicFlags(v), rip := v)))
  {
    assert RealisedAt(l, codeSize, m.cpu.mem, i);
    T.ThunkForwards(m, Code(l, i), Data(l, codeSize, i));
  }

  /** Jumping to a thunk without one counts the call and returns zero. */
  lemma ThunkAnswers(l: Link, codeSize: nat, m: T.Machine, i: nat)
    requires Layout(l, codeSize) && |l.targets| == l.capacity && i < l.capacity && Realised(l, codeSize, m.cpu.mem)
    requires m.cpu.rip == Code(l, i) && l.targets[i] == 0
    requires E.Apart(X86.Plus(Data(l, codeSize, i), 8), m.cpu.regs[X86.RSP], 8)
    ensures T.Ticks(T.Clock(X86.Decode), m, 8) == Some(T.Counted(m, X86.Plus(Data(l, codeSize, i), 8)))
  {
    assert RealisedAt(l, codeSize, m.cpu.mem, i);
    T.TableLayout(l.base, codeSize, l.capacity, i);
    ApartPart(X86.Plus(Data(l, codeSize, i), 8), l.base, codeSize, 32 * i, 32);
    T.ThunkCounts(m, Code(l, i), Data(l, codeSize, i));
  }

  /** Apart from an area is apart from each part of it. */
  lemma ApartPart(a: U64, b: U64, n: nat, from: nat, size: nat)
    requires E.Apart(a, b, n) && from + size <= n && b + n < TWO64
    ensures E.Apart(a, b + from, size)
  {
    var at: U64 := b + from;
    forall j | 0 <= j < size ensures !X86.Within8(X86.Plus(at, j), a) {
      assert X86.Plus(at, j) == X86.Plus(b, from + j);
    }
  }

  /**
   After any history from an empty table, with memory that realises the table: if a symbol's word was resolved to a
   value that is not zero, the word holds that value, and a call that still goes through the thunk issued for the word
   arrives there too. If it was never resolved but has a thunk, the word holds the thunk, and a call counts and returns
   zero.
   */
  lemma CallsReachResolved(s: Symbols, l: Link, images: seq<Image>, actions: seq<Action>, i: nat, j: nat,
                           codeSize: nat, m: T.Machine, n: nat)
    requires GoodLink(l) && l.records == [] && Distinct(images) && IsReloc(images, i, j)
             && Symbolic(images[i].relocs[j])
    requires PatchOf(images, i, j) in l.memory.words
    requires var y := Run(images, System(s, l, map[]), actions);
             && Find(y.link, PatchOf(images, i, j)) == Some(n) && Layout(y.link, codeSize)
             && Realised(y.link, codeSize, m.cpu.mem)
             && m.cpu.rip == Thunk(y.link, n) && E.Apart(X86.Plus(Data(y.link, codeSize, n), 8), m.cpu.regs[X86.RSP], 8)
    ensures var y, p := Run(images, System(s, l, map[]), actions), PatchOf(images, i, j);
            if p in y.values then
              var v := y.values[p];
              && HoldsWord(y.link.memory, p, v)
              && (v != 0 ==>
                    T.Ticks(T.Clock(X86.Decode), m, 4)
                    == Some(m.(cpu := m.cpu.(regs := m.cpu.regs[X86.R11 := v], flags := X86.LogicFlags(v), rip := v))))
            else
              && IsThunk(y.link, p, n)
              && T.Ticks(T.Clock(X86.Decode), m, 8) == Some(T.Counted(m, X86.Plus(Data(y.link, codeSize, n), 8)))
  {
    var y, p := Run(images, System(s, l, map[]), actions), PatchOf(images, i, j);
    WordsStayLinked(s, l, images, actions, i, j);
    if p in y.values {
      if y.values[p] != 0 { ThunkReaches(y.link, codeSize, m, n); }
    } else {
      ThunkAnswers(y.link, codeSize, m, n);
    }
  }
}
