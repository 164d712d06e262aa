/**
 * The collision chains of the lk_Table scatter table, stated on plain values:
 * the entry array as a sequence, with a ghost chain number and a ghost position
 * for every slot. A slot's `next` is a relative offset to the following slot of
 * its chain (0 ends the chain).
 *
 * A slot is `used` once it has held a key. Removing a key leaves its slot used,
 * so the free-slot scan of an insertion never picks a slot that other chains
 * still run through (the `used` mark plays the part of Lua's dead keys; see
 * LkTableAsWritten for what the C code does instead).
 */
module LkChain {
  import opened Wrappers
  import opened LkTable

  datatype Entry<V> = Entry(next: int, hash: bv32, key: Option<seq<char>>, value: Option<V>, used: bool)

  /** A slot of a freshly allocated (zero-filled) entry array. */
  function EmptyEntry<V>(): Entry<V>
  {
    Entry(0, 0, None, None, false)
  }

  /** lkH_mainposition: hash & (size - 1), which is hash % size for a power-of-two size. */
  function MainPos(h: bv32, n: nat): (r: nat)
    requires n > 0
    ensures r < n
  {
    (h as int) % n
  }

  ghost predicate Dims<V>(s: seq<Entry<V>>, list: seq<nat>, pos: seq<nat>)
  {
    |list| == |s| && |pos| == |s|
  }

  /** A link stays inside the array and leads to the next position of the same chain. */
  ghost predicate Links<V>(s: seq<Entry<V>>, list: seq<nat>, pos: seq<nat>)
    requires Dims(s, list, pos)
  {
    forall i | 0 <= i < |s| && s[i].next != 0 ::
      0 <= i + s[i].next < |s| && list[i + s[i].next] == list[i] && pos[i + s[i].next] == pos[i] + 1
  }

  /** A slot without a link is the last of its chain. */
  ghost predicate Tails<V>(s: seq<Entry<V>>, list: seq<nat>, pos: seq<nat>)
    requires Dims(s, list, pos)
  {
    forall i, k | 0 <= i < |s| && 0 <= k < |s| && s[i].next == 0 && list[k] == list[i] :: pos[k] <= pos[i]
  }

  /** No two slots share a place in a chain. */
  ghost predicate Distinct(list: seq<nat>, pos: seq<nat>)
    requires |list| == |pos|
  {
    forall i, j | 0 <= i < |list| && 0 <= j < |list| && i != j && list[i] == list[j] :: pos[i] != pos[j]
  }

  /** A slot that never held a key has no key, no link, and a chain of its own. */
  ghost predicate Unused<V>(s: seq<Entry<V>>, list: seq<nat>)
    requires |list| == |s|
  {
    forall i | 0 <= i < |s| && !s[i].used ::
      s[i].key.None? && s[i].next == 0 && forall k | 0 <= k < |s| && k != i :: list[k] != list[i]
  }

  /** The link structure, and every slot from `lastfree` up is used. */
  ghost predicate Shape<V>(s: seq<Entry<V>>, lastfree: nat, list: seq<nat>, pos: seq<nat>)
  {
    && Dims(s, list, pos)
    && lastfree <= |s|
    && Links(s, list, pos)
    && Tails(s, list, pos)
    && Distinct(list, pos)
    && Unused(s, list)
    && (forall i | lastfree <= i < |s| :: s[i].used)
  }

  /** INT_MAX + 1: the bound of the C `int` that holds lk_Entry.next. */
  const INT_LIMIT: int := 0x8000_0000

  /**
   * Every link is an offset strictly between -|s| and |s|, so it fits the
   * C `int` of lk_Entry.next whenever the array has at most 2^31 slots.
   */
  lemma LinksFitInt<V>(s: seq<Entry<V>>, lastfree: nat, list: seq<nat>, pos: seq<nat>)
    requires Shape(s, lastfree, list, pos)
    ensures forall i | 0 <= i < |s| :: -|s| < s[i].next < |s|
    ensures |s| <= INT_LIMIT ==> forall i | 0 <= i < |s| :: -INT_LIMIT <= s[i].next < INT_LIMIT
  {
  }

  /** A slot holding a key has held one, and is where `slotOf` puts the key. */
  ghost predicate KeyEntries<V>(s: seq<Entry<V>>, slotOf: map<seq<char>, nat>)
  {
    forall i | 0 <= i < |s| && s[i].key.Some? ::
      s[i].used && s[i].key.value in slotOf && slotOf[s[i].key.value] == i
  }

  /** The slot `slotOf` names for a key holds that key. */
  ghost predicate SlotsHold<V>(s: seq<Entry<V>>, slotOf: map<seq<char>, nat>)
  {
    forall k | k in slotOf :: slotOf[k] < |s| && s[slotOf[k]].key == Some(k)
  }

  /** Every key sits in the one slot `slotOf` names. */
  ghost predicate Keys<V>(s: seq<Entry<V>>, slotOf: map<seq<char>, nat>)
  {
    KeyEntries(s, slotOf) && SlotsHold(s, slotOf)
  }

  /** Every slot holding a key stores that key's lkH_calchash value. */
  ghost predicate HashesMatch<V>(s: seq<Entry<V>>)
  {
    forall i | 0 <= i < |s| && s[i].key.Some? :: s[i].hash == CalcHash(s[i].key.value)
  }

  /** Every key lies on its main position's chain, at or after it. */
  ghost predicate ReachChains<V>(s: seq<Entry<V>>, list: seq<nat>, pos: seq<nat>)
    requires Dims(s, list, pos) && |s| > 0
  {
    forall j | 0 <= j < |s| && s[j].key.Some? ::
      list[MainPos(s[j].hash, |s|)] == list[j] && pos[MainPos(s[j].hash, |s|)] <= pos[j]
  }

  /** A slot holding a key away from its own main position is the main position of no key. */
  ghost predicate NoMainUnderForeign<V>(s: seq<Entry<V>>)
    requires |s| > 0
  {
    forall i, j | 0 <= i < |s| && 0 <= j < |s| && s[i].key.Some? && s[j].key.Some? && MainPos(s[i].hash, |s|) != i ::
      MainPos(s[j].hash, |s|) != i
  }

  /** The main position of every key has held a key. */
  ghost predicate MainsUsed<V>(s: seq<Entry<V>>)
    requires |s| > 0
  {
    forall j | 0 <= j < |s| && s[j].key.Some? :: s[MainPos(s[j].hash, |s|)].used
  }

  ghost predicate Inv<V>(s: seq<Entry<V>>, lastfree: nat, list: seq<nat>, pos: seq<nat>, slotOf: map<seq<char>, nat>)
  {
    && Shape(s, lastfree, list, pos)
    && Keys(s, slotOf)
    && HashesMatch(s)
    && (|s| == 0 ==> slotOf == map[])
    && (|s| > 0 ==> ReachChains(s, list, pos) && NoMainUnderForeign(s))
  }

  /** A zeroed array: every slot a chain of its own, no key, no slot used. */
  lemma FreshInv<V>(s: seq<Entry<V>>) returns (list: seq<nat>, pos: seq<nat>)
    requires forall i | 0 <= i < |s| :: s[i] == EmptyEntry()
    ensures Inv(s, |s|, list, pos, map[]) && MapOf(s, map[]) == map[] && UsedSet(s) == {}
  {
    list, pos := seq(|s|, i => i), seq(|s|, i => 0);
  }

  lemma MainUsed<V>(s: seq<Entry<V>>, lastfree: nat, list: seq<nat>, pos: seq<nat>)
    requires Shape(s, lastfree, list, pos) && |s| > 0 && ReachChains(s, list, pos)
    ensures MainsUsed(s)
  {
    forall j | 0 <= j < |s| && s[j].key.Some?
      ensures s[MainPos(s[j].hash, |s|)].used
    {
      var m := MainPos(s[j].hash, |s|);
      assert m != j ==> pos[m] != pos[j];
    }
  }

  /** The slots after place `p` of chain `c`: the measure a chain walk decreases. */
  ghost function Later(list: seq<nat>, pos: seq<nat>, c: nat, p: nat): set<nat>
    requires |list| == |pos|
  {
    set k | 0 <= k < |list| && list[k] == c && pos[k] > p
  }

  /** One step of a chain walk: it stays on the chain and gets closer to any slot ahead. */
  lemma WalkStep<V>(s: seq<Entry<V>>, list: seq<nat>, pos: seq<nat>, e: nat)
    requires Dims(s, list, pos) && Links(s, list, pos) && e < |s| && s[e].next != 0
    ensures Later(list, pos, list[e], pos[e + s[e].next]) < Later(list, pos, list[e], pos[e])
  {
    var e' := e + s[e].next;
    assert e' in Later(list, pos, list[e], pos[e]);
  }

  /** A walk along a key's chain that has not reached the key can go on, and stays before it. */
  lemma WalkTowards<V>(s: seq<Entry<V>>, lastfree: nat, list: seq<nat>, pos: seq<nat>, e: nat, p: nat)
    requires Shape(s, lastfree, list, pos)
    requires e < |s| && p < |s| && e != p && list[e] == list[p] && pos[e] <= pos[p]
    ensures s[e].next != 0
    ensures list[e + s[e].next] == list[p] && pos[e + s[e].next] <= pos[p]
  {
    assert pos[e] != pos[p];
  }

  /**
   * One slot of the lk_getentry walk on chain `c`, ahead of `k`'s slot if `k`
   * is present: a match is the key's slot, the end of the chain means the key
   * is absent, and otherwise the walk goes on along the chain, closer to the end.
   */
  lemma LookupStep<V>(s: seq<Entry<V>>, lastfree: nat, list: seq<nat>, pos: seq<nat>, slotOf: map<seq<char>, nat>,
                      k: seq<char>, e: nat, c: nat)
    requires Inv(s, lastfree, list, pos, slotOf) && e < |s| && list[e] == c
    requires k in slotOf ==> list[slotOf[k]] == c && pos[e] <= pos[slotOf[k]]
    ensures s[e].hash == CalcHash(k) && s[e].key == Some(k) ==> k in slotOf && slotOf[k] == e
    ensures !(s[e].hash == CalcHash(k) && s[e].key == Some(k)) && s[e].next == 0 ==> k !in slotOf
    ensures !(s[e].hash == CalcHash(k) && s[e].key == Some(k)) && s[e].next != 0 ==>
              && 0 <= e + s[e].next < |s| && list[e + s[e].next] == c
              && (k in slotOf ==> pos[e + s[e].next] <= pos[slotOf[k]])
              && Later(list, pos, c, pos[e + s[e].next]) < Later(list, pos, c, pos[e])
  {
    if k in slotOf {
      var p := slotOf[k];
      assert s[p].key == Some(k) && s[p].hash == CalcHash(k);
      if e != p {
        WalkTowards(s, lastfree, list, pos, e, p);
      }
    }
    if s[e].next != 0 {
      WalkStep(s, list, pos, e);
    }
  }

  /** Positions of chain `c` after place `p` moved one place on, to open place p + 1. */
  function Shifted(list: seq<nat>, pos: seq<nat>, c: nat, p: nat): (r: seq<nat>)
    requires |list| == |pos|
    ensures |r| == |pos|
  {
    seq(|pos|, i requires 0 <= i < |pos| => if list[i] == c && pos[i] > p then pos[i] + 1 else pos[i])
  }

  /** The entry an insertion writes: lkH_newkey sets key, hash and value and keeps the link. */
  function Placed<V>(e: Entry<V>, k: seq<char>, h: bv32, v: Option<V>): Entry<V>
  {
    e.(hash := h, key := Some(k), value := v, used := true)
  }

  /** The free-slot bound may move to any lower slot above which every slot is used. */
  lemma InvLowered<V>(s: seq<Entry<V>>, lastfree: nat, lower: nat, list: seq<nat>, pos: seq<nat>, slotOf: map<seq<char>, nat>)
    requires Inv(s, lastfree, list, pos, slotOf)
    requires lower <= |s| && forall j | lower <= j < |s| :: s[j].used
    ensures Inv(s, lower, list, pos, slotOf)
  {
  }

  /** Changing keys, hashes and values, and marking slots used, keeps the link structure. */
  lemma ShapeKeptByWrites<V>(s: seq<Entry<V>>, s': seq<Entry<V>>, lastfree: nat, list: seq<nat>, pos: seq<nat>)
    requires Shape(s, lastfree, list, pos) && |s'| == |s|
    requires forall i | 0 <= i < |s| :: s'[i].next == s[i].next && (s[i].used ==> s'[i].used)
    requires forall i | 0 <= i < |s| && !s'[i].used :: s'[i].key == s[i].key
    ensures Shape(s', lastfree, list, pos)
  {
    assert Links(s', list, pos);
    assert Tails(s', list, pos);
    assert Unused(s', list);
  }

  // ---- Case 1: the main position holds no key ----

  /** Insertion when the key's main position `mp` holds no key: the key goes there. */
  lemma PlaceAtMain<V>(s: seq<Entry<V>>, lastfree: nat, list: seq<nat>, pos: seq<nat>, slotOf: map<seq<char>, nat>,
                       mp: nat, k: seq<char>, h: bv32, v: Option<V>)
    requires Inv(s, lastfree, list, pos, slotOf) && |s| > 0 && k !in slotOf && h == CalcHash(k)
    requires mp == MainPos(h, |s|) && s[mp].key.None?
    ensures Inv(s[mp := Placed(s[mp], k, h, v)], lastfree, list, pos, slotOf[k := mp])
  {
    var s' := s[mp := Placed(s[mp], k, h, v)];
    ShapeKeptByWrites(s, s', lastfree, list, pos);
    PlaceAtMainKeys(s, slotOf, mp, k, h, v);
    PlaceAtMainReach(s, list, pos, mp, k, h, v);
  }

  lemma PlaceAtMainKeys<V>(s: seq<Entry<V>>, slotOf: map<seq<char>, nat>, mp: nat, k: seq<char>, h: bv32, v: Option<V>)
    requires Keys(s, slotOf) && HashesMatch(s) && k !in slotOf && h == CalcHash(k)
    requires mp < |s| && s[mp].key.None?
    ensures Keys(s[mp := Placed(s[mp], k, h, v)], slotOf[k := mp])
    ensures HashesMatch(s[mp := Placed(s[mp], k, h, v)])
  {
    var s' := s[mp := Placed(s[mp], k, h, v)];
    var slotOf' := slotOf[k := mp];
    forall i | 0 <= i < |s'| && s'[i].key.Some?
      ensures s'[i].used && s'[i].key.value in slotOf' && slotOf'[s'[i].key.value] == i
      ensures s'[i].hash == CalcHash(s'[i].key.value)
    {
      if i != mp {
        assert s'[i] == s[i];
      }
    }
    forall k' | k' in slotOf'
      ensures slotOf'[k'] < |s'| && s'[slotOf'[k']].key == Some(k')
    {
      if k' != k {
        assert slotOf[k'] != mp;
      }
    }
  }

  lemma PlaceAtMainReach<V>(s: seq<Entry<V>>, list: seq<nat>, pos: seq<nat>, mp: nat, k: seq<char>, h: bv32, v: Option<V>)
    requires Dims(s, list, pos) && |s| > 0 && ReachChains(s, list, pos) && NoMainUnderForeign(s)
    requires mp == MainPos(h, |s|) && s[mp].key.None?
    ensures Dims(s[mp := Placed(s[mp], k, h, v)], list, pos)
    ensures ReachChains(s[mp := Placed(s[mp], k, h, v)], list, pos)
    ensures NoMainUnderForeign(s[mp := Placed(s[mp], k, h, v)])
  {
    var s' := s[mp := Placed(s[mp], k, h, v)];
    forall j | 0 <= j < |s'| && s'[j].key.Some?
      ensures list[MainPos(s'[j].hash, |s'|)] == list[j] && pos[MainPos(s'[j].hash, |s'|)] <= pos[j]
    {
      if j != mp {
        assert s'[j] == s[j];
      }
    }
    forall i, j | 0 <= i < |s'| && 0 <= j < |s'| && s'[i].key.Some? && s'[j].key.Some? && MainPos(s'[i].hash, |s'|) != i
      ensures MainPos(s'[j].hash, |s'|) != i
    {
      assert i != mp && s'[i] == s[i];
      if j != mp {
        assert s'[j] == s[j];
      }
    }
  }

  // ---- Case 2: the main position holds a key of its own chain ----

  /**
   * Insertion when the main position `mp` holds a key of its own chain: the new
   * key goes to the free slot `f`, linked in right after `mp`.
   */
  function AfterMain<V>(s: seq<Entry<V>>, mp: nat, f: nat, k: seq<char>, h: bv32, v: Option<V>): seq<Entry<V>>
    requires mp < |s| && f < |s|
  {
    s[mp := s[mp].(next := f - mp)]
     [f := Placed(s[f].(next := if s[mp].next != 0 then mp + s[mp].next - f else s[f].next), k, h, v)]
  }

  ghost function AfterMainList(list: seq<nat>, mp: nat, f: nat): seq<nat>
    requires mp < |list| && f < |list|
  {
    list[f := list[mp]]
  }

  ghost function AfterMainPos(list: seq<nat>, pos: seq<nat>, mp: nat, f: nat): seq<nat>
    requires |list| == |pos| && mp < |list| && f < |list|
  {
    Shifted(list, pos, list[mp], pos[mp])[f := pos[mp] + 1]
  }

  /** What a case-2 insertion needs: `mp` holds a key at its own main position, `f` has never held one. */
  ghost predicate AfterMainReady<V>(s: seq<Entry<V>>, lastfree: nat, list: seq<nat>, pos: seq<nat>, mp: nat, f: nat)
  {
    && Shape(s, f + 1, list, pos)
    && lastfree == f && mp < |s| && f < |s|
    && s[mp].key.Some? && MainPos(s[mp].hash, |s|) == mp
    && !s[f].used
  }

  /** The entries after a case-2 insertion, slot by slot. */
  lemma AfterMainEntries<V>(s: seq<Entry<V>>, mp: nat, f: nat, k: seq<char>, h: bv32, v: Option<V>)
    requires mp < |s| && f < |s| && mp != f
    ensures var s' := AfterMain(s, mp, f, k, h, v);
            && |s'| == |s|
            && s'[mp] == s[mp].(next := f - mp)
            && s'[f] == Placed(s[f].(next := if s[mp].next != 0 then mp + s[mp].next - f else s[f].next), k, h, v)
            && forall i | 0 <= i < |s| && i != f && i != mp :: s'[i] == s[i]
  {
  }

  lemma AfterMainLinks<V>(s: seq<Entry<V>>, lastfree: nat, list: seq<nat>, pos: seq<nat>, mp: nat, f: nat, k: seq<char>, h: bv32, v: Option<V>)
    requires AfterMainReady(s, lastfree, list, pos, mp, f)
    ensures Dims(AfterMain(s, mp, f, k, h, v), AfterMainList(list, mp, f), AfterMainPos(list, pos, mp, f))
    ensures Links(AfterMain(s, mp, f, k, h, v), AfterMainList(list, mp, f), AfterMainPos(list, pos, mp, f))
  {
    var s', list', pos' := AfterMain(s, mp, f, k, h, v), AfterMainList(list, mp, f), AfterMainPos(list, pos, mp, f);
    assert mp != f;
    AfterMainEntries(s, mp, f, k, h, v);
    forall i | 0 <= i < |s'| && s'[i].next != 0
      ensures 0 <= i + s'[i].next < |s'| && list'[i + s'[i].next] == list'[i] && pos'[i + s'[i].next] == pos'[i] + 1
    {
      if i == mp {
      } else if i == f {
        var q := mp + s[mp].next;
        assert s[mp].next != 0 && q != f && q != mp;
      } else {
        var j := i + s[i].next;
        assert j != f;
        if list[i] == list[mp] {
          assert pos[i] != pos[mp];
        }
      }
    }
  }

  lemma AfterMainTails<V>(s: seq<Entry<V>>, lastfree: nat, list: seq<nat>, pos: seq<nat>, mp: nat, f: nat, k: seq<char>, h: bv32, v: Option<V>)
    requires AfterMainReady(s, lastfree, list, pos, mp, f)
    ensures Dims(AfterMain(s, mp, f, k, h, v), AfterMainList(list, mp, f), AfterMainPos(list, pos, mp, f))
    ensures Tails(AfterMain(s, mp, f, k, h, v), AfterMainList(list, mp, f), AfterMainPos(list, pos, mp, f))
  {
    var s', list', pos' := AfterMain(s, mp, f, k, h, v), AfterMainList(list, mp, f), AfterMainPos(list, pos, mp, f);
    assert mp != f;
    AfterMainEntries(s, mp, f, k, h, v);
    forall i, j | 0 <= i < |s'| && 0 <= j < |s'| && s'[i].next == 0 && list'[j] == list'[i]
      ensures pos'[j] <= pos'[i]
    {
      if i == f {
        assert s[mp].next == 0;
      } else {
        assert i != mp;
        if j == f {
          assert pos[i] != pos[mp];
        }
      }
    }
  }

  lemma AfterMainRest<V>(s: seq<Entry<V>>, lastfree: nat, list: seq<nat>, pos: seq<nat>, mp: nat, f: nat, k: seq<char>, h: bv32, v: Option<V>)
    requires AfterMainReady(s, lastfree, list, pos, mp, f)
    ensures Dims(AfterMain(s, mp, f, k, h, v), AfterMainList(list, mp, f), AfterMainPos(list, pos, mp, f))
    ensures Distinct(AfterMainList(list, mp, f), AfterMainPos(list, pos, mp, f))
    ensures Unused(AfterMain(s, mp, f, k, h, v), AfterMainList(list, mp, f))
    ensures forall i | lastfree <= i < |s| :: AfterMain(s, mp, f, k, h, v)[i].used
  {
    var s', list', pos' := AfterMain(s, mp, f, k, h, v), AfterMainList(list, mp, f), AfterMainPos(list, pos, mp, f);
    assert mp != f;
    AfterMainEntries(s, mp, f, k, h, v);
    forall i, j | 0 <= i < |list'| && 0 <= j < |list'| && i != j && list'[i] == list'[j]
      ensures pos'[i] != pos'[j]
    {
    }
    forall u | 0 <= u < |s'| && !s'[u].used
      ensures s'[u].key.None? && s'[u].next == 0 && forall j | 0 <= j < |s'| && j != u :: list'[j] != list'[u]
    {
      assert u != f && u != mp;
    }
  }

  lemma AfterMainKeys<V>(s: seq<Entry<V>>, slotOf: map<seq<char>, nat>, mp: nat, f: nat, k: seq<char>, h: bv32, v: Option<V>)
    requires Keys(s, slotOf) && HashesMatch(s) && k !in slotOf && h == CalcHash(k)
    requires mp < |s| && f < |s| && mp != f && s[f].key.None?
    ensures Keys(AfterMain(s, mp, f, k, h, v), slotOf[k := f])
    ensures HashesMatch(AfterMain(s, mp, f, k, h, v))
  {
    var s', slotOf' := AfterMain(s, mp, f, k, h, v), slotOf[k := f];
    AfterMainEntries(s, mp, f, k, h, v);
    forall i | 0 <= i < |s'| && s'[i].key.Some?
      ensures s'[i].used && s'[i].key.value in slotOf' && slotOf'[s'[i].key.value] == i
      ensures s'[i].hash == CalcHash(s'[i].key.value)
    {
    }
    forall k' | k' in slotOf'
      ensures slotOf'[k'] < |s'| && s'[slotOf'[k']].key == Some(k')
    {
      if k' != k {
        assert slotOf[k'] != f;
      }
    }
  }

  lemma AfterMainChains<V>(s: seq<Entry<V>>, list: seq<nat>, pos: seq<nat>, mp: nat, f: nat, k: seq<char>, h: bv32, v: Option<V>)
    requires Dims(s, list, pos) && |s| > 0 && ReachChains(s, list, pos) && MainsUsed(s)
    requires mp < |s| && f < |s| && !s[f].used && s[f].key.None? && mp != f && mp == MainPos(h, |s|)
    ensures Dims(AfterMain(s, mp, f, k, h, v), AfterMainList(list, mp, f), AfterMainPos(list, pos, mp, f))
    ensures ReachChains(AfterMain(s, mp, f, k, h, v), AfterMainList(list, mp, f), AfterMainPos(list, pos, mp, f))
  {
    var s', list', pos' := AfterMain(s, mp, f, k, h, v), AfterMainList(list, mp, f), AfterMainPos(list, pos, mp, f);
    AfterMainEntries(s, mp, f, k, h, v);
    forall j | 0 <= j < |s'| && s'[j].key.Some?
      ensures list'[MainPos(s'[j].hash, |s'|)] == list'[j] && pos'[MainPos(s'[j].hash, |s'|)] <= pos'[j]
    {
      if j != f {
        var m := MainPos(s[j].hash, |s|);
        assert s'[j].hash == s[j].hash && s[j].key.Some?;
        assert m != f;
      }
    }
  }

  lemma AfterMainForeign<V>(s: seq<Entry<V>>, mp: nat, f: nat, k: seq<char>, h: bv32, v: Option<V>)
    requires |s| > 0 && NoMainUnderForeign(s) && MainsUsed(s)
    requires mp < |s| && f < |s| && !s[f].used && mp != f && MainPos(s[mp].hash, |s|) == mp && s[mp].key.Some?
    requires mp == MainPos(h, |s|)
    ensures NoMainUnderForeign(AfterMain(s, mp, f, k, h, v))
  {
    var s' := AfterMain(s, mp, f, k, h, v);
    AfterMainEntries(s, mp, f, k, h, v);
    forall i, j | 0 <= i < |s'| && 0 <= j < |s'| && s'[i].key.Some? && s'[j].key.Some? && MainPos(s'[i].hash, |s'|) != i
      ensures MainPos(s'[j].hash, |s'|) != i
    {
      if j != f {
        assert s'[j].hash == s[j].hash && s[j].key.Some?;
      }
      if i != f && j != f {
        assert s'[i].hash == s[i].hash && s[i].key.Some?;
      }
    }
  }

  /** The chain state after a case-2 insertion. */
  lemma PlaceAfterMain<V>(s: seq<Entry<V>>, lastfree: nat, list: seq<nat>, pos: seq<nat>, slotOf: map<seq<char>, nat>,
                          mp: nat, f: nat, k: seq<char>, h: bv32, v: Option<V>)
    requires AfterMainReady(s, lastfree, list, pos, mp, f) && Inv(s, f + 1, list, pos, slotOf)
    requires k !in slotOf && h == CalcHash(k) && mp == MainPos(h, |s|)
    ensures Inv(AfterMain(s, mp, f, k, h, v), lastfree, AfterMainList(list, mp, f), AfterMainPos(list, pos, mp, f), slotOf[k := f])
  {
    AfterMainLinks(s, lastfree, list, pos, mp, f, k, h, v);
    AfterMainTails(s, lastfree, list, pos, mp, f, k, h, v);
    AfterMainRest(s, lastfree, list, pos, mp, f, k, h, v);
    AfterMainKeys(s, slotOf, mp, f, k, h, v);
    MainUsed(s, f + 1, list, pos);
    AfterMainChains(s, list, pos, mp, f, k, h, v);
    AfterMainForeign(s, mp, f, k, h, v);
  }

  // ---- Case 3: the main position holds a key of another chain ----

  /**
   * Insertion when the main position `mp` holds a key of another chain: that
   * key moves to the free slot `f` (its predecessor `pred` now links to `f`,
   * and `f` takes over its link), and the new key takes `mp` with no link.
   */
  function AfterMove<V>(s: seq<Entry<V>>, mp: nat, f: nat, pred: nat, k: seq<char>, h: bv32, v: Option<V>): seq<Entry<V>>
    requires mp < |s| && f < |s| && pred < |s|
  {
    var s1 := s[pred := s[pred].(next := f - pred)];
    var moved := s1[mp].(next := if s1[mp].next != 0 then s1[mp].next + mp - f else s1[mp].next);
    s1[f := moved][mp := Placed(s1[mp].(next := 0), k, h, v)]
  }

  /** The moved key takes the chain place of `mp`, which starts the chain `f` had on its own. */
  ghost function Swapped(xs: seq<nat>, mp: nat, f: nat): seq<nat>
    requires mp < |xs| && f < |xs|
  {
    xs[f := xs[mp]][mp := xs[f]]
  }

  /** What a case-3 insertion needs: `mp` holds a key away from its main position, `pred` links to it, `f` is free. */
  ghost predicate AfterMoveReady<V>(s: seq<Entry<V>>, lastfree: nat, list: seq<nat>, pos: seq<nat>, mp: nat, f: nat, pred: nat)
  {
    && Shape(s, f + 1, list, pos)
    && lastfree == f && mp < |s| && f < |s| && pred < |s|
    && s[mp].key.Some? && MainPos(s[mp].hash, |s|) != mp
    && s[pred].next != 0 && pred + s[pred].next == mp
    && !s[f].used
  }

  /** The entries after a case-3 insertion, slot by slot. */
  lemma AfterMoveEntries<V>(s: seq<Entry<V>>, mp: nat, f: nat, pred: nat, k: seq<char>, h: bv32, v: Option<V>)
    requires mp < |s| && f < |s| && pred < |s| && mp != f && pred != f && pred != mp
    ensures var s' := AfterMove(s, mp, f, pred, k, h, v);
            && |s'| == |s|
            && s'[pred] == s[pred].(next := f - pred)
            && s'[f] == s[mp].(next := if s[mp].next != 0 then s[mp].next + mp - f else s[mp].next)
            && s'[mp] == Placed(s[mp].(next := 0), k, h, v)
            && forall i | 0 <= i < |s| && i != pred && i != f && i != mp :: s'[i] == s[i]
  {
  }

  lemma AfterMoveLinks<V>(s: seq<Entry<V>>, lastfree: nat, list: seq<nat>, pos: seq<nat>, mp: nat, f: nat, pred: nat, k: seq<char>, h: bv32, v: Option<V>)
    requires AfterMoveReady(s, lastfree, list, pos, mp, f, pred)
    ensures Dims(AfterMove(s, mp, f, pred, k, h, v), Swapped(list, mp, f), Swapped(pos, mp, f))
    ensures Links(AfterMove(s, mp, f, pred, k, h, v), Swapped(list, mp, f), Swapped(pos, mp, f))
  {
    var s', list', pos' := AfterMove(s, mp, f, pred, k, h, v), Swapped(list, mp, f), Swapped(pos, mp, f);
    assert mp != f && pred != f && pred != mp;
    AfterMoveEntries(s, mp, f, pred, k, h, v);
    forall i | 0 <= i < |s'| && s'[i].next != 0
      ensures 0 <= i + s'[i].next < |s'| && list'[i + s'[i].next] == list'[i] && pos'[i + s'[i].next] == pos'[i] + 1
    {
      if i == pred {
      } else if i == f {
        var q := mp + s[mp].next;
        assert s[mp].next != 0 && q != f && q != mp;
      } else {
        var j := i + s[i].next;
        assert i != mp;
        assert j != f;
        assert j != mp;
      }
    }
  }

  lemma AfterMoveTails<V>(s: seq<Entry<V>>, lastfree: nat, list: seq<nat>, pos: seq<nat>, mp: nat, f: nat, pred: nat, k: seq<char>, h: bv32, v: Option<V>)
    requires AfterMoveReady(s, lastfree, list, pos, mp, f, pred)
    ensures Dims(AfterMove(s, mp, f, pred, k, h, v), Swapped(list, mp, f), Swapped(pos, mp, f))
    ensures Tails(AfterMove(s, mp, f, pred, k, h, v), Swapped(list, mp, f), Swapped(pos, mp, f))
  {
    var s', list', pos' := AfterMove(s, mp, f, pred, k, h, v), Swapped(list, mp, f), Swapped(pos, mp, f);
    assert mp != f && pred != f && pred != mp;
    AfterMoveEntries(s, mp, f, pred, k, h, v);
    forall i, j | 0 <= i < |s'| && 0 <= j < |s'| && s'[i].next == 0 && list'[j] == list'[i]
      ensures pos'[j] <= pos'[i]
    {
      if i == mp {
      } else if i == f {
        assert s[mp].next == 0;
      } else {
        assert s'[i] == s[i];
      }
    }
  }

  lemma AfterMoveRest<V>(s: seq<Entry<V>>, lastfree: nat, list: seq<nat>, pos: seq<nat>, mp: nat, f: nat, pred: nat, k: seq<char>, h: bv32, v: Option<V>)
    requires AfterMoveReady(s, lastfree, list, pos, mp, f, pred)
    ensures Dims(AfterMove(s, mp, f, pred, k, h, v), Swapped(list, mp, f), Swapped(pos, mp, f))
    ensures Distinct(Swapped(list, mp, f), Swapped(pos, mp, f))
    ensures Unused(AfterMove(s, mp, f, pred, k, h, v), Swapped(list, mp, f))
    ensures forall i | lastfree <= i < |s| :: AfterMove(s, mp, f, pred, k, h, v)[i].used
  {
    var s', list', pos' := AfterMove(s, mp, f, pred, k, h, v), Swapped(list, mp, f), Swapped(pos, mp, f);
    assert mp != f && pred != f && pred != mp;
    AfterMoveEntries(s, mp, f, pred, k, h, v);
    forall i, j | 0 <= i < |list'| && 0 <= j < |list'| && i != j && list'[i] == list'[j]
      ensures pos'[i] != pos'[j]
    {
      var i0 := if i == mp then f else if i == f then mp else i;
      var j0 := if j == mp then f else if j == f then mp else j;
      assert list'[i] == list[i0] && pos'[i] == pos[i0] && list'[j] == list[j0] && pos'[j] == pos[j0];
    }
    forall u | 0 <= u < |s'| && !s'[u].used
      ensures s'[u].key.None? && s'[u].next == 0 && forall j | 0 <= j < |s'| && j != u :: list'[j] != list'[u]
    {
      assert u != f && u != mp && u != pred && s'[u] == s[u];
    }
  }

  /** Where the keys are after a case-3 insertion: the moved key at `f`, the new key at `mp`. */
  ghost function AfterMoveSlots<V>(s: seq<Entry<V>>, slotOf: map<seq<char>, nat>, mp: nat, f: nat, k: seq<char>): map<seq<char>, nat>
    requires mp < |s| && s[mp].key.Some?
  {
    slotOf[s[mp].key.value := f][k := mp]
  }

  lemma AfterMoveKeys<V>(s: seq<Entry<V>>, slotOf: map<seq<char>, nat>, mp: nat, f: nat, pred: nat, k: seq<char>, h: bv32, v: Option<V>)
    requires Keys(s, slotOf) && HashesMatch(s) && k !in slotOf && h == CalcHash(k)
    requires mp < |s| && f < |s| && pred < |s| && mp != f && pred != f && pred != mp
    requires s[mp].key.Some? && s[f].key.None?
    ensures Keys(AfterMove(s, mp, f, pred, k, h, v), AfterMoveSlots(s, slotOf, mp, f, k))
    ensures HashesMatch(AfterMove(s, mp, f, pred, k, h, v))
  {
    var s', slotOf' := AfterMove(s, mp, f, pred, k, h, v), AfterMoveSlots(s, slotOf, mp, f, k);
    AfterMoveEntries(s, mp, f, pred, k, h, v);
    var ko := s[mp].key.value;
    forall i | 0 <= i < |s'| && s'[i].key.Some?
      ensures s'[i].used && s'[i].key.value in slotOf' && slotOf'[s'[i].key.value] == i
      ensures s'[i].hash == CalcHash(s'[i].key.value)
    {
      if i != f && i != mp {
        assert s'[i].key == s[i].key && s'[i].hash == s[i].hash && s'[i].used == s[i].used;
      }
    }
    forall k' | k' in slotOf'
      ensures slotOf'[k'] < |s'| && s'[slotOf'[k']].key == Some(k')
    {
      if k' != k && k' != ko {
        assert slotOf[k'] != mp && slotOf[k'] != f;
      }
    }
  }

  lemma AfterMoveChains<V>(s: seq<Entry<V>>, list: seq<nat>, pos: seq<nat>, mp: nat, f: nat, pred: nat, k: seq<char>, h: bv32, v: Option<V>)
    requires Dims(s, list, pos) && |s| > 0 && ReachChains(s, list, pos) && NoMainUnderForeign(s) && MainsUsed(s)
    requires mp < |s| && f < |s| && pred < |s| && !s[f].used && s[f].key.None? && mp != f && pred != f && pred != mp
    requires s[mp].key.Some? && MainPos(s[mp].hash, |s|) != mp && mp == MainPos(h, |s|)
    ensures Dims(AfterMove(s, mp, f, pred, k, h, v), Swapped(list, mp, f), Swapped(pos, mp, f))
    ensures ReachChains(AfterMove(s, mp, f, pred, k, h, v), Swapped(list, mp, f), Swapped(pos, mp, f))
  {
    var s', list', pos' := AfterMove(s, mp, f, pred, k, h, v), Swapped(list, mp, f), Swapped(pos, mp, f);
    AfterMoveEntries(s, mp, f, pred, k, h, v);
    forall j | 0 <= j < |s'| && s'[j].key.Some?
      ensures list'[MainPos(s'[j].hash, |s'|)] == list'[j] && pos'[MainPos(s'[j].hash, |s'|)] <= pos'[j]
    {
      if j == f {
        var m := MainPos(s[mp].hash, |s|);
        assert m != f && m != mp;
      } else if j != mp {
        var m := MainPos(s[j].hash, |s|);
        assert s'[j].hash == s[j].hash && s[j].key.Some?;
        assert m != f && m != mp;
      }
    }
  }

  lemma AfterMoveForeign<V>(s: seq<Entry<V>>, mp: nat, f: nat, pred: nat, k: seq<char>, h: bv32, v: Option<V>)
    requires |s| > 0 && NoMainUnderForeign(s) && MainsUsed(s)
    requires mp < |s| && f < |s| && pred < |s| && !s[f].used && mp != f && pred != f && pred != mp
    requires s[mp].key.Some? && MainPos(s[mp].hash, |s|) != mp && mp == MainPos(h, |s|)
    ensures NoMainUnderForeign(AfterMove(s, mp, f, pred, k, h, v))
  {
    var s' := AfterMove(s, mp, f, pred, k, h, v);
    AfterMoveEntries(s, mp, f, pred, k, h, v);
    forall i, j | 0 <= i < |s'| && 0 <= j < |s'| && s'[i].key.Some? && s'[j].key.Some? && MainPos(s'[i].hash, |s'|) != i
      ensures MainPos(s'[j].hash, |s'|) != i
    {
      var j0 := if j == f then mp else j;
      if j != mp {
        assert s'[j].hash == s[j0].hash && s[j0].key.Some?;
      }
      if i != f && i != mp {
        assert s'[i].hash == s[i].hash && s[i].key.Some?;
      }
    }
  }

  /** The chain state after a case-3 insertion. */
  lemma MoveOccupant<V>(s: seq<Entry<V>>, lastfree: nat, list: seq<nat>, pos: seq<nat>, slotOf: map<seq<char>, nat>,
                        mp: nat, f: nat, pred: nat, k: seq<char>, h: bv32, v: Option<V>)
    requires AfterMoveReady(s, lastfree, list, pos, mp, f, pred) && Inv(s, f + 1, list, pos, slotOf)
    requires k !in slotOf && h == CalcHash(k) && mp == MainPos(h, |s|)
    ensures Inv(AfterMove(s, mp, f, pred, k, h, v), lastfree, Swapped(list, mp, f), Swapped(pos, mp, f), AfterMoveSlots(s, slotOf, mp, f, k))
  {
    assert mp != f && pred != f && pred != mp;
    AfterMoveLinks(s, lastfree, list, pos, mp, f, pred, k, h, v);
    AfterMoveTails(s, lastfree, list, pos, mp, f, pred, k, h, v);
    AfterMoveRest(s, lastfree, list, pos, mp, f, pred, k, h, v);
    AfterMoveKeys(s, slotOf, mp, f, pred, k, h, v);
    MainUsed(s, f + 1, list, pos);
    AfterMoveChains(s, list, pos, mp, f, pred, k, h, v);
    AfterMoveForeign(s, mp, f, pred, k, h, v);
  }

  // ---- One insertion step, all cases: chain state, map view and used count ----

  /** A case-1 insertion, with the key slots it leaves. */
  lemma AtMainStep<V>(s: seq<Entry<V>>, lastfree: nat, list: seq<nat>, pos: seq<nat>, slotOf: map<seq<char>, nat>,
                      mp: nat, k: seq<char>, h: bv32, v: Option<V>)
      returns (slotOf': map<seq<char>, nat>)
    requires Inv(s, lastfree, list, pos, slotOf) && |s| > 0 && k !in slotOf && h == CalcHash(k)
    requires mp == MainPos(h, |s|) && s[mp].key.None?
    ensures var s' := s[mp := Placed(s[mp], k, h, v)];
            && Inv(s', lastfree, list, pos, slotOf')
            && k in slotOf' && slotOf'[k] == mp
            && MapOf(s', slotOf') == MapOf(s, slotOf)[k := v]
            && |UsedSet(s')| <= |UsedSet(s)| + 1
  {
    PlaceAtMain(s, lastfree, list, pos, slotOf, mp, k, h, v);
    MapAtMain(s, slotOf, mp, k, h, v);
    UsedGrowth(s, s[mp := Placed(s[mp], k, h, v)], mp);
    slotOf' := slotOf[k := mp];
  }

  /** A case-2 insertion, with the chain state it leaves. */
  lemma AfterMainStep<V>(s: seq<Entry<V>>, lastfree: nat, list: seq<nat>, pos: seq<nat>, slotOf: map<seq<char>, nat>,
                         mp: nat, f: nat, k: seq<char>, h: bv32, v: Option<V>)
      returns (list': seq<nat>, pos': seq<nat>, slotOf': map<seq<char>, nat>)
    requires AfterMainReady(s, lastfree, list, pos, mp, f) && Inv(s, f + 1, list, pos, slotOf)
    requires k !in slotOf && h == CalcHash(k) && mp == MainPos(h, |s|)
    ensures var s' := AfterMain(s, mp, f, k, h, v);
            && Inv(s', lastfree, list', pos', slotOf')
            && k in slotOf' && slotOf'[k] == f
            && MapOf(s', slotOf') == MapOf(s, slotOf)[k := v]
            && |UsedSet(s')| <= |UsedSet(s)| + 1
  {
    PlaceAfterMain(s, lastfree, list, pos, slotOf, mp, f, k, h, v);
    MapAfterMain(s, slotOf, mp, f, k, h, v);
    AfterMainEntries(s, mp, f, k, h, v);
    UsedGrowth(s, AfterMain(s, mp, f, k, h, v), f);
    list', pos', slotOf' := AfterMainList(list, mp, f), AfterMainPos(list, pos, mp, f), slotOf[k := f];
  }

  /** A case-3 insertion, with the chain state it leaves. */
  lemma MoveStep<V>(s: seq<Entry<V>>, lastfree: nat, list: seq<nat>, pos: seq<nat>, slotOf: map<seq<char>, nat>,
                    mp: nat, f: nat, pred: nat, k: seq<char>, h: bv32, v: Option<V>)
      returns (list': seq<nat>, pos': seq<nat>, slotOf': map<seq<char>, nat>)
    requires AfterMoveReady(s, lastfree, list, pos, mp, f, pred) && Inv(s, f + 1, list, pos, slotOf)
    requires k !in slotOf && h == CalcHash(k) && mp == MainPos(h, |s|)
    ensures var s' := AfterMove(s, mp, f, pred, k, h, v);
            && Inv(s', lastfree, list', pos', slotOf')
            && k in slotOf' && slotOf'[k] == mp
            && MapOf(s', slotOf') == MapOf(s, slotOf)[k := v]
            && |UsedSet(s')| <= |UsedSet(s)| + 1
  {
    MoveOccupant(s, lastfree, list, pos, slotOf, mp, f, pred, k, h, v);
    MoveViews(s, slotOf, mp, f, pred, k, h, v);
    list', pos', slotOf' := Swapped(list, mp, f), Swapped(pos, mp, f), AfterMoveSlots(s, slotOf, mp, f, k);
  }

  lemma MoveViews<V>(s: seq<Entry<V>>, slotOf: map<seq<char>, nat>, mp: nat, f: nat, pred: nat, k: seq<char>, h: bv32, v: Option<V>)
    requires Keys(s, slotOf) && k !in slotOf
    requires mp < |s| && f < |s| && pred < |s| && mp != f && pred != f && pred != mp
    requires s[mp].key.Some? && s[mp].used && s[pred].used && !s[f].used && s[f].key.None?
    ensures var s' := AfterMove(s, mp, f, pred, k, h, v);
            && MapOf(s', AfterMoveSlots(s, slotOf, mp, f, k)) == MapOf(s, slotOf)[k := v]
            && |UsedSet(s')| <= |UsedSet(s)| + 1
  {
    MapAfterMove(s, slotOf, mp, f, pred, k, h, v);
    AfterMoveEntries(s, mp, f, pred, k, h, v);
    UsedGrowth(s, AfterMove(s, mp, f, pred, k, h, v), f);
  }

  // ---- Removal, value writes, the map view, counting ----

  /** The entry lk_delentry leaves: no key, hash 0, no value; the link and the `used` mark stay. */
  function Cleared<V>(e: Entry<V>): Entry<V>
  {
    e.(hash := 0, key := None, value := None)
  }

  /** `slotOf` without the key slot `i` holds, if any. */
  ghost function SlotsWithout<V>(s: seq<Entry<V>>, slotOf: map<seq<char>, nat>, i: nat): map<seq<char>, nat>
    requires i < |s|
  {
    if s[i].key.Some? then map k | k in slotOf && k != s[i].key.value :: slotOf[k] else slotOf
  }

  /** Removing the key of slot `i` keeps the chain state, less that key. */
  lemma ClearKeeps<V>(s: seq<Entry<V>>, lastfree: nat, list: seq<nat>, pos: seq<nat>, slotOf: map<seq<char>, nat>, i: nat)
    requires Inv(s, lastfree, list, pos, slotOf) && i < |s|
    ensures Inv(s[i := Cleared(s[i])], lastfree, list, pos, SlotsWithout(s, slotOf, i))
  {
    ShapeKeptByWrites(s, s[i := Cleared(s[i])], lastfree, list, pos);
    ClearKeys(s, slotOf, i);
    if |s| > 0 {
      ClearReach(s, list, pos, i);
    }
  }

  lemma ClearKeys<V>(s: seq<Entry<V>>, slotOf: map<seq<char>, nat>, i: nat)
    requires Keys(s, slotOf) && HashesMatch(s) && i < |s|
    ensures Keys(s[i := Cleared(s[i])], SlotsWithout(s, slotOf, i))
    ensures HashesMatch(s[i := Cleared(s[i])])
  {
    var s' := s[i := Cleared(s[i])];
    var slotOf' := SlotsWithout(s, slotOf, i);
    forall j | 0 <= j < |s'| && s'[j].key.Some?
      ensures s'[j].used && s'[j].key.value in slotOf' && slotOf'[s'[j].key.value] == j
      ensures s'[j].hash == CalcHash(s'[j].key.value)
    {
      assert j != i && s'[j] == s[j];
    }
    forall k | k in slotOf'
      ensures slotOf'[k] < |s'| && s'[slotOf'[k]].key == Some(k)
    {
      assert slotOf'[k] == slotOf[k] && slotOf[k] != i;
    }
  }

  lemma ClearReach<V>(s: seq<Entry<V>>, list: seq<nat>, pos: seq<nat>, i: nat)
    requires Dims(s, list, pos) && |s| > 0 && ReachChains(s, list, pos) && NoMainUnderForeign(s) && i < |s|
    ensures Dims(s[i := Cleared(s[i])], list, pos)
    ensures ReachChains(s[i := Cleared(s[i])], list, pos) && NoMainUnderForeign(s[i := Cleared(s[i])])
  {
    var s' := s[i := Cleared(s[i])];
    forall j | 0 <= j < |s'| && s'[j].key.Some?
      ensures list[MainPos(s'[j].hash, |s'|)] == list[j] && pos[MainPos(s'[j].hash, |s'|)] <= pos[j]
    {
      assert j != i && s'[j] == s[j];
    }
    forall a, b | 0 <= a < |s'| && 0 <= b < |s'| && s'[a].key.Some? && s'[b].key.Some? && MainPos(s'[a].hash, |s'|) != a
      ensures MainPos(s'[b].hash, |s'|) != a
    {
      assert a != i && s'[a] == s[a] && b != i && s'[b] == s[b];
    }
  }

  /** A removal, with the key slots it leaves and the map view it gives. */
  lemma ClearStep<V>(s: seq<Entry<V>>, lastfree: nat, list: seq<nat>, pos: seq<nat>, slotOf: map<seq<char>, nat>, i: nat)
      returns (slotOf': map<seq<char>, nat>)
    requires Inv(s, lastfree, list, pos, slotOf) && i < |s|
    ensures Inv(s[i := Cleared(s[i])], lastfree, list, pos, slotOf')
    ensures MapOf(s[i := Cleared(s[i])], slotOf')
         == if s[i].key.Some? then MapOf(s, slotOf) - {s[i].key.value} else MapOf(s, slotOf)
  {
    ClearKeeps(s, lastfree, list, pos, slotOf, i);
    MapCleared(s, slotOf, i);
    slotOf' := SlotsWithout(s, slotOf, i);
  }

  /** Writing the value of a slot that holds a key keeps the chain state. */
  lemma SetValueKeeps<V>(s: seq<Entry<V>>, lastfree: nat, list: seq<nat>, pos: seq<nat>, slotOf: map<seq<char>, nat>, i: nat, v: Option<V>)
    requires Inv(s, lastfree, list, pos, slotOf) && i < |s| && s[i].key.Some?
    ensures Inv(s[i := s[i].(value := v)], lastfree, list, pos, slotOf)
  {
    var s' := s[i := s[i].(value := v)];
    ShapeKeptByWrites(s, s', lastfree, list, pos);
    SetValueKeys(s, slotOf, i, v);
    if |s| > 0 {
      SetValueReach(s, list, pos, i, v);
    }
  }

  lemma SetValueKeys<V>(s: seq<Entry<V>>, slotOf: map<seq<char>, nat>, i: nat, v: Option<V>)
    requires Keys(s, slotOf) && HashesMatch(s) && i < |s|
    ensures Keys(s[i := s[i].(value := v)], slotOf) && HashesMatch(s[i := s[i].(value := v)])
  {
    var s' := s[i := s[i].(value := v)];
    forall j | 0 <= j < |s'|
      ensures s'[j].key == s[j].key && s'[j].hash == s[j].hash && s'[j].used == s[j].used
    {
    }
  }

  lemma SetValueReach<V>(s: seq<Entry<V>>, list: seq<nat>, pos: seq<nat>, i: nat, v: Option<V>)
    requires Dims(s, list, pos) && |s| > 0 && ReachChains(s, list, pos) && NoMainUnderForeign(s) && i < |s|
    ensures Dims(s[i := s[i].(value := v)], list, pos)
    ensures ReachChains(s[i := s[i].(value := v)], list, pos) && NoMainUnderForeign(s[i := s[i].(value := v)])
  {
    var s' := s[i := s[i].(value := v)];
    forall j | 0 <= j < |s'|
      ensures s'[j].key == s[j].key && s'[j].hash == s[j].hash
    {
    }
  }

  /** The key-value map the entries hold. */
  ghost function MapOf<V>(s: seq<Entry<V>>, slotOf: map<seq<char>, nat>): map<seq<char>, Option<V>>
  {
    map k | k in slotOf :: if slotOf[k] < |s| then s[slotOf[k]].value else None
  }

  lemma MapAtMain<V>(s: seq<Entry<V>>, slotOf: map<seq<char>, nat>, mp: nat, k: seq<char>, h: bv32, v: Option<V>)
    requires SlotsHold(s, slotOf) && k !in slotOf && mp < |s| && s[mp].key.None?
    ensures MapOf(s[mp := Placed(s[mp], k, h, v)], slotOf[k := mp]) == MapOf(s, slotOf)[k := v]
  {
    var s' := s[mp := Placed(s[mp], k, h, v)];
    forall k' | k' in slotOf && k' != k
      ensures slotOf[k'] != mp
    {
    }
    assert MapOf(s', slotOf[k := mp]) == MapOf(s, slotOf)[k := v];
  }

  lemma MapAfterMain<V>(s: seq<Entry<V>>, slotOf: map<seq<char>, nat>, mp: nat, f: nat, k: seq<char>, h: bv32, v: Option<V>)
    requires SlotsHold(s, slotOf) && k !in slotOf && mp < |s| && f < |s| && mp != f && s[f].key.None?
    ensures MapOf(AfterMain(s, mp, f, k, h, v), slotOf[k := f]) == MapOf(s, slotOf)[k := v]
  {
    var s' := AfterMain(s, mp, f, k, h, v);
    AfterMainEntries(s, mp, f, k, h, v);
    forall k' | k' in slotOf && k' != k
      ensures slotOf[k'] != f && s'[slotOf[k']].value == s[slotOf[k']].value
    {
    }
    assert MapOf(s', slotOf[k := f]) == MapOf(s, slotOf)[k := v];
  }

  lemma MapAfterMove<V>(s: seq<Entry<V>>, slotOf: map<seq<char>, nat>, mp: nat, f: nat, pred: nat, k: seq<char>, h: bv32, v: Option<V>)
    requires Keys(s, slotOf) && k !in slotOf
    requires mp < |s| && f < |s| && pred < |s| && mp != f && pred != f && pred != mp
    requires s[mp].key.Some? && s[f].key.None?
    ensures MapOf(AfterMove(s, mp, f, pred, k, h, v), AfterMoveSlots(s, slotOf, mp, f, k)) == MapOf(s, slotOf)[k := v]
  {
    var s', slotOf' := AfterMove(s, mp, f, pred, k, h, v), AfterMoveSlots(s, slotOf, mp, f, k);
    AfterMoveEntries(s, mp, f, pred, k, h, v);
    var ko := s[mp].key.value;
    forall k' | k' in slotOf && k' != k && k' != ko
      ensures slotOf'[k'] == slotOf[k'] && slotOf[k'] != f && slotOf[k'] != mp && s'[slotOf[k']].value == s[slotOf[k']].value
    {
    }
    assert MapOf(s', slotOf') == MapOf(s, slotOf)[k := v];
  }

  lemma MapCleared<V>(s: seq<Entry<V>>, slotOf: map<seq<char>, nat>, i: nat)
    requires Keys(s, slotOf) && i < |s|
    ensures MapOf(s[i := Cleared(s[i])], SlotsWithout(s, slotOf, i))
         == if s[i].key.Some? then MapOf(s, slotOf) - {s[i].key.value} else MapOf(s, slotOf)
  {
    forall k | k in slotOf && (s[i].key.None? || k != s[i].key.value)
      ensures slotOf[k] != i
    {
    }
  }

  lemma MapSetValue<V>(s: seq<Entry<V>>, slotOf: map<seq<char>, nat>, i: nat, v: Option<V>)
    requires Keys(s, slotOf) && i < |s| && s[i].key.Some?
    ensures MapOf(s[i := s[i].(value := v)], slotOf) == MapOf(s, slotOf)[s[i].key.value := v]
  {
    var k := s[i].key.value;
    forall k' | k' in slotOf && k' != k
      ensures slotOf[k'] != i
    {
    }
    assert MapOf(s[i := s[i].(value := v)], slotOf) == MapOf(s, slotOf)[k := v];
  }

  /** The slots that have held a key. */
  ghost function UsedSet<V>(s: seq<Entry<V>>): set<nat>
  {
    set i | 0 <= i < |s| && s[i].used
  }

  /** Marking at most one more slot used adds at most one to the used count. */
  lemma UsedGrowth<V>(s: seq<Entry<V>>, s': seq<Entry<V>>, i: nat)
    requires |s'| == |s| && forall j | 0 <= j < |s| && j != i :: s'[j].used == s[j].used
    ensures |UsedSet(s')| <= |UsedSet(s)| + 1
  {
    var b := UsedSet(s) + {i};
    assert UsedSet(s') <= b;
    assert b == UsedSet(s') + (b - UsedSet(s'));
  }

  /** When every slot has held a key, there are as many used slots as slots. */
  lemma {:induction false} AllUsed<V>(s: seq<Entry<V>>)
    requires forall i | 0 <= i < |s| :: s[i].used
    ensures |UsedSet(s)| == |s|
  {
    if |s| > 0 {
      var t := s[..|s| - 1];
      AllUsed(t);
      assert UsedSet(s) == UsedSet(t) + {|s| - 1};
    }
  }

  /** The entries of `s` holding a key: what lkH_countsize counts. */
  function LiveCount<V>(s: seq<Entry<V>>): (r: nat)
    ensures r <= |s|
  {
    if |s| == 0 then 0 else LiveCount(s[..|s| - 1]) + (if s[|s| - 1].key.Some? then 1 else 0)
  }

  lemma {:induction false} LiveCountPrefix<V>(s: seq<Entry<V>>, i: nat)
    requires i < |s|
    ensures LiveCount(s[..i]) + (if s[i].key.Some? then 1 else 0) <= LiveCount(s)
    decreases |s| - i
  {
    if i == |s| - 1 {
      assert s[..|s| - 1] == s[..i];
    } else {
      LiveCountPrefix(s[..|s| - 1], i);
      assert s[..|s| - 1][..i] == s[..i];
    }
  }
}
