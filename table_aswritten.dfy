/**
 * lk_Table exactly as loki.h writes it, on key slots only: a removed entry
 * (key NULL, hash 0, its `next` left in place) counts as free for the
 * lastfree scan of lkH_newkey, although a chain may still run through it.
 * Reusing such a slot rewrites its `next`, and keys further down the old
 * chain can no longer be found. The table the rest of the model uses
 * (LkHashTable) keeps the slot out of the scan instead.
 */
module LkTableAsWritten {
  import opened Wrappers
  import opened LkTable
  import opened LkChain

  /** An entry without its value: the link, the stored hash and the key. */
  datatype Cell = Cell(next: int, hash: bv32, key: Option<seq<char>>)

  /** `hash` with its `lastfree` cursor. */
  datatype TableW = TableW(cells: seq<Cell>, lastfree: nat)

  const Zero: Cell := Cell(0, 0, None)

  ghost predicate Sized(t: TableW)
  {
    |t.cells| > 0 && t.lastfree <= |t.cells|
  }

  /** The zero-filled array lk_resizetable starts from, `lastfree` at the end. */
  function EmptyW(size: nat): (t: TableW)
    requires size > 0
    ensures Sized(t) && t.lastfree == size
    ensures forall i | 0 <= i < size :: t.cells[i].key.None?
  {
    TableW(seq(size, i => Zero), size)
  }

  /**
   * The lastfree scan of lkH_newkey: steps down from `lastfree` and stops at
   * the first slot whose key is NULL, whatever its `next`.
   */
  function ScanW(cells: seq<Cell>, lastfree: nat): (r: (Option<nat>, nat))
    requires lastfree <= |cells|
    ensures r.0.Some? ==> r.0.value == r.1 < lastfree && cells[r.1].key.None?
    ensures r.0.Some? ==> forall j | r.1 < j < lastfree :: cells[j].key.Some?
    ensures r.0.None? ==> r.1 == 0 && forall j | 0 <= j < lastfree :: cells[j].key.Some?
    decreases lastfree
  {
    if lastfree == 0 then (None, 0)
    else if cells[lastfree - 1].key.None? then (Some(lastfree - 1), lastfree - 1)
    else ScanW(cells, lastfree - 1)
  }

  /** The walk of lkH_newkey from the colliding key's main position to the slot linking to `mp`. */
  function PredW(cells: seq<Cell>, e: nat, mp: nat, fuel: nat): (r: Option<nat>)
    requires e < |cells|
    ensures r.Some? ==> r.value < |cells| && r.value + cells[r.value].next == mp
    decreases fuel
  {
    if e + cells[e].next == mp then Some(e)
    else if fuel == 0 || !(0 <= e + cells[e].next < |cells|) then None
    else PredW(cells, e + cells[e].next, mp, fuel - 1)
  }

  /** The final stores of lkH_newkey: key and hash go into the slot, its `next` stays. */
  function Put(cells: seq<Cell>, i: nat, k: seq<char>, h: bv32): seq<Cell>
    requires i < |cells|
  {
    cells[i := cells[i].(key := Some(k), hash := h)]
  }

  /**
   * lkH_newkey on a table with an array, for a key it does not hold. None
   * stands for the resize path (no slot left), which this model does not
   * follow, and for a predecessor walk that does not reach `mp`.
   */
  function NewKeyW(t: TableW, k: seq<char>): (r: Option<TableW>)
    requires Sized(t)
    ensures r.Some? ==> Sized(r.value) && |r.value.cells| == |t.cells| && r.value.lastfree <= t.lastfree
  {
    var c := t.cells;
    var h := CalcHash(k);
    var mp := MainPos(h, |c|);
    if c[mp].key.None? then
      Some(TableW(Put(c, mp, k, h), t.lastfree))
    else
      var (fo, lf) := ScanW(c, t.lastfree);
      if fo.None? then None
      else
        var f := fo.value;
        var othern := MainPos(c[mp].hash, |c|);
        if othern != mp then
          match PredW(c, othern, mp, |c|)
          case None => None
          case Some(pred) =>
            var c1 := c[pred := c[pred].(next := f - pred)];
            var c2 := c1[f := c1[mp]];
            var c3 := if c2[mp].next != 0
                      then c2[f := c2[f].(next := c2[f].next + mp - f)][mp := c2[mp].(next := 0)]
                      else c2;
            Some(TableW(Put(c3, mp, k, h), lf))
        else
          var c1 := if c[mp].next != 0 then c[f := c[f].(next := mp + c[mp].next - f)] else c;
          var c2 := c1[mp := c1[mp].(next := f - mp)];
          Some(TableW(Put(c2, f, k, h), lf))
  }

  /** The chain walk of lk_getentry from slot `e`, at most `fuel` links long. */
  function LookW(cells: seq<Cell>, k: seq<char>, h: bv32, e: nat, fuel: nat): (r: Option<nat>)
    requires e < |cells|
    ensures r.Some? ==> r.value < |cells| && cells[r.value].key == Some(k)
    decreases fuel
  {
    if cells[e].hash == h && cells[e].key == Some(k) then Some(e)
    else if cells[e].next == 0 || fuel == 0 || !(0 <= e + cells[e].next < |cells|) then None
    else LookW(cells, k, h, e + cells[e].next, fuel - 1)
  }

  /** lk_getentry: NULL on an empty table, else the walk from the key's main position. */
  function GetW(t: TableW, k: seq<char>): (r: Option<nat>)
    ensures r.Some? ==> r.value < |t.cells| && t.cells[r.value].key == Some(k)
  {
    if |t.cells| == 0 then None
    else
      var h := CalcHash(k);
      LookW(t.cells, k, h, MainPos(h, |t.cells|), |t.cells|)
  }

  /** lk_setentry for a key that is not NULL: the table unchanged when the key is found. */
  function SetW(t: TableW, k: seq<char>): (r: Option<TableW>)
    requires Sized(t)
    ensures GetW(t, k).Some? ==> r == Some(t)
  {
    if GetW(t, k).Some? then Some(t) else NewKeyW(t, k)
  }

  /** lk_delentry: hash and key cleared, `next` left as it was. */
  function DelW(t: TableW, i: nat): (r: TableW)
    requires i < |t.cells|
    ensures |r.cells| == |t.cells| && r.lastfree == t.lastfree && r.cells[i].key.None?
    ensures r.cells[i].next == t.cells[i].next
  {
    TableW(t.cells[i := t.cells[i].(hash := 0, key := None)], t.lastfree)
  }

  /** lkH_calchash of a one-character key: one round over the seed 1. */
  lemma OneCharHash(c: char)
    ensures CalcHash([c]) == Mix(1, Byte(c))
  {
    assert Step(1) == 1;
    assert HashFrom([c], 1, 1, 1) == HashFrom([c], Mix(1, Byte(c)), 0, 1);
  }

  /** The set of keys the cells hold. */
  function HeldKeys(t: TableW): (r: set<seq<char>>)
    ensures forall j | 0 <= j < |t.cells| && t.cells[j].key.Some? :: t.cells[j].key.value in r
    ensures forall x | x in r :: exists j | 0 <= j < |t.cells| :: t.cells[j].key == Some(x)
  {
    set j | 0 <= j < |t.cells| && t.cells[j].key.Some? :: t.cells[j].key.value
  }

  lemma KeyHash(x: seq<char>, c: char, h: bv32)
    requires x == [c] && Mix(1, Byte(c)) == h
    ensures CalcHash(x) == h
  {
    OneCharHash(c);
  }

  /** The keys of the sequence below, by role. */
  datatype RunKeys = RunKeys(d: seq<char>, l: seq<char>, a: seq<char>, i: seq<char>, q: seq<char>)

  /**
   * The hashes that place the keys on eight slots: `d` and `l` at main
   * position 5, `a`, `i` and `q` at main position 0.
   */
  ghost predicate Hashed(ks: RunKeys)
  {
    && CalcHash(ks.d) == 101 && CalcHash(ks.l) == 109
    && CalcHash(ks.a) == 96 && CalcHash(ks.i) == 104 && CalcHash(ks.q) == 112
  }

  lemma MainPositions()
    ensures MainPos(101, 8) == 5 && MainPos(109, 8) == 5
    ensures MainPos(96, 8) == 0 && MainPos(104, 8) == 0 && MainPos(112, 8) == 0
  {
  }

  /** `d` in its main position 5. */
  function T1(ks: RunKeys): TableW
  {
    TableW([Zero, Zero, Zero, Zero, Zero, Cell(0, 101, Some(ks.d)), Zero, Zero], 8)
  }

  /** `l` collides with `d` and takes slot 7, the first the scan finds. */
  function T2(ks: RunKeys): TableW
  {
    TableW([Zero, Zero, Zero, Zero, Zero, Cell(2, 101, Some(ks.d)), Zero, Cell(0, 109, Some(ks.l))], 7)
  }

  /** `a` in its main position 0. */
  function T3(ks: RunKeys): TableW
  {
    TableW([Cell(0, 96, Some(ks.a)), Zero, Zero, Zero, Zero, Cell(2, 101, Some(ks.d)), Zero,
            Cell(0, 109, Some(ks.l))], 7)
  }

  /** `i` collides with `a` and takes slot 6. */
  function T4(ks: RunKeys): TableW
  {
    TableW([Cell(6, 96, Some(ks.a)), Zero, Zero, Zero, Zero, Cell(2, 101, Some(ks.d)),
            Cell(0, 104, Some(ks.i)), Cell(0, 109, Some(ks.l))], 6)
  }

  /** `d` removed: slot 5 keyless, still linking to `l`. */
  function T5(ks: RunKeys): TableW
  {
    TableW([Cell(6, 96, Some(ks.a)), Zero, Zero, Zero, Zero, Cell(2, 0, None),
            Cell(0, 104, Some(ks.i)), Cell(0, 109, Some(ks.l))], 6)
  }

  /** `q` collides with `a`; the scan takes slot 5, whose link now leads to `i`. */
  function T6(ks: RunKeys): TableW
  {
    TableW([Cell(5, 96, Some(ks.a)), Zero, Zero, Zero, Zero, Cell(1, 112, Some(ks.q)),
            Cell(0, 104, Some(ks.i)), Cell(0, 109, Some(ks.l))], 5)
  }

  lemma Step1(ks: RunKeys)
    requires Hashed(ks)
    ensures SetW(EmptyW(8), ks.d) == Some(T1(ks))
  {
    MainPositions();
    var t := EmptyW(8);
    assert GetW(t, ks.d).None?;
    assert Put(t.cells, 5, ks.d, 101) == T1(ks).cells;
  }

  lemma Step2(ks: RunKeys)
    requires Hashed(ks)
    ensures SetW(T1(ks), ks.l) == Some(T2(ks))
  {
    MainPositions();
    var t := T1(ks);
    assert GetW(t, ks.l).None?;
    assert ScanW(t.cells, 8) == (Some(7), 7);
    var c := t.cells[5 := t.cells[5].(next := 2)];
    assert Put(c, 7, ks.l, 109) == T2(ks).cells;
  }

  lemma Step3(ks: RunKeys)
    requires Hashed(ks)
    ensures SetW(T2(ks), ks.a) == Some(T3(ks))
  {
    MainPositions();
    var t := T2(ks);
    assert GetW(t, ks.a).None?;
    assert Put(t.cells, 0, ks.a, 96) == T3(ks).cells;
  }

  lemma Step4(ks: RunKeys)
    requires Hashed(ks)
    ensures SetW(T3(ks), ks.i) == Some(T4(ks))
  {
    MainPositions();
    var t := T3(ks);
    assert GetW(t, ks.i).None?;
    assert ScanW(t.cells, 7) == (Some(6), 6);
    var c := t.cells[0 := t.cells[0].(next := 6)];
    assert Put(c, 6, ks.i, 104) == T4(ks).cells;
  }

  lemma Step5(ks: RunKeys)
    requires Hashed(ks)
    ensures GetW(T4(ks), ks.d) == Some(5) && DelW(T4(ks), 5) == T5(ks)
  {
    MainPositions();
  }

  lemma Step6(ks: RunKeys)
    requires Hashed(ks)
    ensures SetW(T5(ks), ks.q) == Some(T6(ks))
  {
    MainPositions();
    var t := T5(ks);
    assert LookW(t.cells, ks.q, 112, 6, 7) == None;
    assert GetW(t, ks.q).None?;
    assert ScanW(t.cells, 6) == (Some(5), 5);
    var c1 := t.cells[5 := t.cells[5].(next := 1)];
    var c2 := c1[0 := c1[0].(next := 5)];
    assert Put(c2, 5, ks.q, 112) == T6(ks).cells;
  }

  /**
   * lk_setentry for `d`, `l`, `a` and `i` in turn on an empty 8-slot table,
   * lk_delentry on the entry lk_getentry finds for `d`, then lk_setentry for `q`.
   */
  function ReuseRun(ks: RunKeys): Option<TableW>
  {
    var t1 := SetW(EmptyW(8), ks.d);
    if t1.None? then None else
    var t2 := SetW(t1.value, ks.l);
    if t2.None? then None else
    var t3 := SetW(t2.value, ks.a);
    if t3.None? then None else
    var t4 := SetW(t3.value, ks.i);
    if t4.None? then None else
    var g := GetW(t4.value, ks.d);
    if g.None? then None else
    SetW(DelW(t4.value, g.value), ks.q)
  }

  /**
   * Any five keys hashing like "D", "L", "A", "I" and "Q": after the sequence `l`
   * still sits in slot 7, and lk_getentry walks 5, 6 and stops without it.
   */
  lemma ReuseLosesKey(ks: RunKeys)
    requires Hashed(ks)
    ensures ReuseRun(ks) == Some(T6(ks))
    ensures T6(ks).cells[7].key == Some(ks.l) && GetW(T6(ks), ks.l).None?
  {
    Step1(ks);
    Step2(ks);
    Step3(ks);
    Step4(ks);
    Step5(ks);
    Step6(ks);
    MainPositions();
    var t := T6(ks);
    assert LookW(t.cells, ks.l, 109, 6, 7) == None;
  }

  /** "D" and "L": main position 5 on eight slots. */
  lemma HashesAtFive(d: seq<char>, l: seq<char>)
    requires d == "D" && l == "L"
    ensures CalcHash(d) == 101 && CalcHash(l) == 109
  {
    KeyHash(d, 'D', 101);
    KeyHash(l, 'L', 109);
  }

  /** "A", "I" and "Q": main position 0 on eight slots. */
  lemma HashesAtZero(a: seq<char>, i: seq<char>, q: seq<char>)
    requires a == "A" && i == "I" && q == "Q"
    ensures CalcHash(a) == 96 && CalcHash(i) == 104 && CalcHash(q) == 112
  {
    KeyHash(a, 'A', 96);
    KeyHash(i, 'I', 104);
    KeyHash(q, 'Q', 112);
  }

  /** The sequence on the keys "D", "L", "A", "I", "Q": "L" is stored and cannot be found. */
  lemma DeletedSlotReuseLosesKey(ks: RunKeys)
    requires ks == RunKeys("D", "L", "A", "I", "Q")
    ensures var t := ReuseRun(ks);
            t.Some? && ks.l in HeldKeys(t.value) && GetW(t.value, ks.l).None?
  {
    HashesAtFive(ks.d, ks.l);
    HashesAtZero(ks.a, ks.i, ks.q);
    ReuseLosesKey(ks);
  }
}
