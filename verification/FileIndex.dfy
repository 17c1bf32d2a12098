/** Where a byte of a file lives: file offset to index slot, chunk to bank.

    Sizes are parameters; SHIPPED holds the values the program is built with. */
module FileIndex {
  import opened Basics

  // ----- arithmetic -----

  lemma MulPositive(a: nat, b: nat)
    requires a > 0 && b > 0
    ensures a * b > 0
  {
    MulMonotone(0, a, b);
  }

  function Div(a: nat, b: nat): nat
    requires b > 0
  {
    a / b
  }

  function Mod(a: nat, b: nat): (r: nat)
    requires b > 0
    ensures r < b
  {
    a % b
  }

  lemma Divide(a: nat, b: nat)
    requires b > 0
    ensures a == Div(a, b) * b + Mod(a, b)
  {
  }

  lemma DivideUnique(a: nat, q: nat, r: nat, s: nat)
    requires r < s && a == q * s + r
    ensures Div(a, s) == q && Mod(a, s) == r
  {
    var d := Div(a, s);
    Divide(a, s);
    if d < q {
      MulMonotone(d, q, s);
    } else if q < d {
      MulMonotone(q, d, s);
    }
  }

  lemma DivBelow(a: nat, s: nat, q: nat)
    requires s > 0
    ensures a < q * s ==> Div(a, s) < q
    ensures a >= q * s ==> Div(a, s) >= q
  {
    Divide(a, s);
    var d := Div(a, s);
    if d < q {
      MulMonotone(d, q, s);
    } else if q < d {
      MulMonotone(q, d, s);
    }
  }

  lemma MulSwap(q: nat, f: nat, c: nat)
    ensures (q * f) * c == q * (c * f)
  {
  }

  /** Dividing in two steps */
  lemma DivDiv(a: nat, c: nat, f: nat)
    requires c > 0 && f > 0
    ensures c * f > 0
    ensures Div(a, c * f) == Div(Div(a, c), f)
    ensures Div(Mod(a, c * f), c) == Mod(Div(a, c), f)
    ensures Mod(Mod(a, c * f), c) == Mod(a, c)
  {
    MulPositive(c, f);
    var n, r := Div(a, c), Mod(a, c);
    var q, m := Div(n, f), Mod(n, f);
    Divide(a, c);
    Divide(n, f);
    MulMonotone(m, f, c);
    MulSwap(q, f, c);
    MulSwap(1, f, c);
    assert n * c == (q * f) * c + m * c;
    DivideUnique(a, q, m * c + r, c * f);
    DivideUnique(m * c + r, m, r, c);
  }

  /** chunk bytes per chunk, perBank chunks per bank, banks in all, cache lines,
      direct slots and slots per indirect block */
  datatype Geometry = Geometry(chunk: nat, perBank: nat, banks: nat, lines: nat, direct: nat, fan: nat) {
    predicate Ok() {
      chunk > 0 && perBank > 0 && banks > 0 && lines > 0 && direct > 0 && fan > 0 && lines <= banks
    }

    function Bank(): nat {
      chunk * perBank
    }

    function Chunks(): nat {
      perBank * banks
    }

    /** SIZE_SECOND_DIRECT_UNIT and SIZE_THIRD_DIRECT_UNIT */
    function SecondUnit(): (u: nat)
      requires Ok()
      ensures u > 0
    {
      MulPositive(chunk, fan);
      chunk * fan
    }

    function ThirdUnit(): (u: nat)
      requires Ok()
      ensures u > 0
    {
      MulPositive(SecondUnit(), fan);
      SecondUnit() * fan
    }

    function DirectEnd(): nat {
      direct * chunk
    }

    function FirstEnd(): nat {
      DirectEnd() + fan * chunk
    }

    function SecondEnd(): nat {
      FirstEnd() + Squared() * chunk
    }

    function ThirdEnd(): nat {
      SecondEnd() + Cubed() * chunk
    }

    function Squared(): nat {
      fan * fan
    }

    function Cubed(): nat {
      Squared() * fan
    }

    /** The most chunks a file can have */
    function MaxChunks(): nat {
      direct + fan + Squared() + Cubed()
    }
  }

  const SHIPPED := Geometry(4096, 1024, 2048, 128, 100, 256)

  lemma ShippedOk()
    ensures SHIPPED.Ok()
    ensures SHIPPED.Bank() == 1024 * 1024 * 4 && SHIPPED.Chunks() * 4096 == 1024 * 1024 * 1024 * 8
  {
  }

  /** A slot of an inode's index: direct, or in the first, second or third level
      of indirect blocks */
  datatype Slot =
    | Direct(i: nat)
    | First(i: nat)
    | Second(j: nat, i: nat)
    | Third(k: nat, j: nat, i: nat)

  predicate SlotOk(g: Geometry, s: Slot) {
    match s
    case Direct(i) => i < g.direct
    case First(i) => i < g.fan
    case Second(j, i) => j < g.fan && i < g.fan
    case Third(k, j, i) => k < g.fan && j < g.fan && i < g.fan
  }

  /** The arithmetic of level3_local_index: the slot of a file offset and the
      offset left inside the chunk, or nothing past the largest file */
  function Locate(g: Geometry, offset: nat): Option<(Slot, nat)>
    requires g.Ok()
  {
    if offset < g.DirectEnd() then
      Some((Direct(Div(offset, g.chunk)), Mod(offset, g.chunk)))
    else if offset < g.FirstEnd() then
      var o := offset - g.DirectEnd();
      Some((First(Div(o, g.chunk)), Mod(o, g.chunk)))
    else if offset < g.SecondEnd() then
      var o := offset - g.FirstEnd();
      var o2 := Mod(o, g.SecondUnit());
      Some((Second(Div(o, g.SecondUnit()), Div(o2, g.chunk)), Mod(o2, g.chunk)))
    else if offset < g.ThirdEnd() then
      var o := offset - g.SecondEnd();
      var o3 := Mod(o, g.ThirdUnit());
      var o2 := Mod(o3, g.SecondUnit());
      Some((Third(Div(o, g.ThirdUnit()), Div(o3, g.SecondUnit()), Div(o2, g.chunk)), Mod(o2, g.chunk)))
    else None
  }

  // ----- a reference: chunk numbers -----

  /** The slot of chunk number n, counted in index order */
  function SlotOf(g: Geometry, n: nat): Slot
    requires g.Ok() && n < g.MaxChunks()
  {
    if n < g.direct then Direct(n)
    else if n < g.direct + g.fan then First(n - g.direct)
    else if n < g.direct + g.fan + g.Squared() then
      var m := n - g.direct - g.fan;
      Second(Div(m, g.fan), Mod(m, g.fan))
    else
      var m := n - g.direct - g.fan - g.Squared();
      Third(Div(Div(m, g.fan), g.fan), Mod(Div(m, g.fan), g.fan), Mod(m, g.fan))
  }

  /** The chunk number of a slot */
  function NumberOf(g: Geometry, s: Slot): nat
    requires g.Ok()
  {
    match s
    case Direct(i) => i
    case First(i) => g.direct + i
    case Second(j, i) => g.direct + g.fan + j * g.fan + i
    case Third(k, j, i) => g.direct + g.fan + g.Squared() + (k * g.fan + j) * g.fan + i
  }

  lemma DivSub(a: nat, q: nat, s: nat)
    requires s > 0 && a >= q * s
    ensures Div(a, s) >= q
    ensures Div(a - q * s, s) == Div(a, s) - q && Mod(a - q * s, s) == Mod(a, s)
  {
    DivBelow(a, s, q);
    Divide(a, s);
    var d := Div(a, s);
    assert d * s == q * s + (d - q) * s;
    DivideUnique(a - q * s, d - q, Mod(a, s), s);
  }

  lemma AddTimes(a: nat, b: nat, c: nat)
    ensures (a + b) * c == a * c + b * c
  {
  }

  lemma Ends(g: Geometry)
    requires g.Ok()
    ensures g.FirstEnd() == (g.direct + g.fan) * g.chunk
    ensures g.SecondEnd() == (g.direct + g.fan + g.Squared()) * g.chunk
    ensures g.ThirdEnd() == g.MaxChunks() * g.chunk
  {
    AddTimes(g.direct, g.fan, g.chunk);
    AddTimes(g.direct + g.fan, g.Squared(), g.chunk);
    AddTimes(g.direct + g.fan + g.Squared(), g.Cubed(), g.chunk);
  }

  lemma ThirdArithmetic(o: nat, c: nat, f: nat)
    requires c > 0 && f > 0
    ensures c * f > 0 && (c * f) * f > 0
    ensures var m, o3 := Div(o, c), Mod(o, (c * f) * f);
            var o2 := Mod(o3, c * f);
            && Div(o, (c * f) * f) == Div(Div(m, f), f)
            && Div(o3, c * f) == Mod(Div(m, f), f)
            && Div(o2, c) == Mod(m, f)
            && Mod(o2, c) == Mod(o, c)
  {
    DivDiv(o, c, f);
    DivDiv(o, c * f, f);
  }

  /** The cascaded divisions of level3_local_index compute the slot of chunk
      number offset / chunk and leave offset % chunk, for every offset below the
      largest file size and for no other */
  lemma LocateIsChunk(g: Geometry, offset: nat)
    requires g.Ok()
    ensures var n := Div(offset, g.chunk);
            Locate(g, offset) == if n < g.MaxChunks() then Some((SlotOf(g, n), Mod(offset, g.chunk))) else None
  {
    var c := g.chunk;
    Ends(g);
    DivBelow(offset, c, g.direct);
    DivBelow(offset, c, g.direct + g.fan);
    DivBelow(offset, c, g.direct + g.fan + g.Squared());
    DivBelow(offset, c, g.MaxChunks());
    if offset < g.DirectEnd() {
    } else if offset < g.FirstEnd() {
      DivSub(offset, g.direct, c);
    } else if offset < g.SecondEnd() {
      DivSub(offset, g.direct + g.fan, c);
      DivDiv(offset - g.FirstEnd(), c, g.fan);
    } else if offset < g.ThirdEnd() {
      DivSub(offset, g.direct + g.fan + g.Squared(), c);
      ThirdArithmetic(offset - g.SecondEnd(), c, g.fan);
    }
  }

  /** Chunk numbers and valid slots correspond one to one */
  lemma SlotOfIsOneToOne(g: Geometry, n: nat)
    requires g.Ok() && n < g.MaxChunks()
    ensures SlotOk(g, SlotOf(g, n)) && NumberOf(g, SlotOf(g, n)) == n
  {
    var f := g.fan;
    if n >= g.direct + f + g.Squared() {
      var m := n - g.direct - f - g.Squared();
      Divide(m, f);
      Divide(Div(m, f), f);
      DivBelow(m, f, g.Squared());
      DivBelow(Div(m, f), f, f);
    } else if n >= g.direct + f {
      var m := n - g.direct - f;
      Divide(m, f);
      DivBelow(m, f, f);
    }
  }

  lemma ThirdNumber(f: nat, k: nat, j: nat, i: nat)
    requires k < f && j < f && i < f
    ensures var m := (k * f + j) * f + i;
            && m < (f * f) * f
            && Div(Div(m, f), f) == k && Mod(Div(m, f), f) == j && Mod(m, f) == i
  {
    var h := k * f + j;
    MulMonotone(k, f, f);
    assert h < f * f;
    MulMonotone(h, f * f, f);
    DivideUnique(h * f + i, h, i, f);
    DivideUnique(h, k, j, f);
  }

  lemma SecondNumber(f: nat, j: nat, i: nat)
    requires j < f && i < f
    ensures j * f + i < f * f && Div(j * f + i, f) == j && Mod(j * f + i, f) == i
  {
    MulMonotone(j, f, f);
    DivideUnique(j * f + i, j, i, f);
  }

  lemma SlotOfIsOnto(g: Geometry, s: Slot)
    requires g.Ok() && SlotOk(g, s)
    ensures NumberOf(g, s) < g.MaxChunks() && SlotOf(g, NumberOf(g, s)) == s
  {
    match s
    case Direct(i) =>
    case First(i) =>
    case Second(j, i) => SecondNumber(g.fan, j, i);
    case Third(k, j, i) => ThirdNumber(g.fan, k, j, i);
  }

  // ----- chunks in banks -----

  /** Where byte r of chunk c lies: in which bank, and where in the bank. A chunk
      never crosses the end of a bank. */
  lemma ChunkInBank(g: Geometry, c: nat)
    requires g.Ok() && c < g.Chunks()
    ensures g.Bank() > 0
    ensures Div(c * g.chunk, g.Bank()) == Div(c, g.perBank) < g.banks
    ensures Mod(c * g.chunk, g.Bank()) == Mod(c, g.perBank) * g.chunk
    ensures Mod(c * g.chunk, g.Bank()) + g.chunk <= g.Bank()
  {
    var q, m := Div(c, g.perBank), Mod(c, g.perBank);
    MulPositive(g.chunk, g.perBank);
    Divide(c, g.perBank);
    MulMonotone(m, g.perBank, g.chunk);
    AddTimes(q * g.perBank, m, g.chunk);
    MulSwap(q, g.perBank, g.chunk);
    DivideUnique(c * g.chunk, q, m * g.chunk, g.Bank());
    DivBelow(c, g.perBank, g.banks);
  }

  /** Bytes of different chunks never share a place */
  lemma ChunksDisjoint(g: Geometry, c: nat, d: nat)
    requires g.Ok() && c < g.Chunks() && d < g.Chunks() && c != d
    requires Div(c * g.chunk, g.Bank()) == Div(d * g.chunk, g.Bank())
    ensures var x, y := Mod(c * g.chunk, g.Bank()), Mod(d * g.chunk, g.Bank());
            x + g.chunk <= y || y + g.chunk <= x
  {
    ChunkInBank(g, c);
    ChunkInBank(g, d);
    Divide(c, g.perBank);
    Divide(d, g.perBank);
    var m, k := Mod(c, g.perBank), Mod(d, g.perBank);
    if m < k {
      MulMonotone(m, k, g.chunk);
    } else {
      MulMonotone(k, m, g.chunk);
    }
  }
}
