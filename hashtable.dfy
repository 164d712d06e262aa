/**
 * lk_Table: the string-keyed scatter table the runtime keeps its services,
 * preloaded modules and configuration in. The entry array is the only state
 * the C code has; the chain places and key slots beside it are ghost.
 */
module LkHashTable {
  import opened Wrappers
  import opened LkTable
  import opened LkChain

  /** Tables are modelled up to 2^62 slots, so that doubling the count stays within size_t. */
  const MAX_TABLE: nat := 0x4000_0000_0000_0000

  class Table<V> {
    /** `hash` of lk_Table; its length is `size` (0 while no array is allocated). */
    var hash: array<Entry<V>>
    var lastfree: nat
    ghost var list: seq<nat>
    ghost var pos: seq<nat>
    ghost var slotOf: map<seq<char>, nat>

    ghost predicate Valid()
      reads this, hash
    {
      && (hash.Length == 0 || IsTableSize(hash.Length))
      && Inv(hash[..], lastfree, list, pos, slotOf)
    }

    /** The map from keys to values the table holds. */
    ghost function Contents(): map<seq<char>, Option<V>>
      reads this, hash
    {
      MapOf(hash[..], slotOf)
    }

    /** lk_inittable */
    constructor ()
      ensures Valid() && Contents() == map[] && hash.Length == 0 && fresh(hash)
    {
      hash := new Entry<V>[0](i => EmptyEntry());
      lastfree := 0;
      list := [];
      pos := [];
      slotOf := map[];
    }

    /** lk_freetable: drops the array; the keys themselves are not freed. */
    method Free()
      modifies this
      ensures Valid() && Contents() == map[] && hash.Length == 0
    {
      hash := new Entry<V>[0](i => EmptyEntry());
      lastfree := 0;
      list := [];
      pos := [];
      slotOf := map[];
    }

    /**
     * lk_getentry: walks the chain from the key's main position, comparing
     * hash and key; NULL (None) for a NULL key, an empty table, or an absent key.
     */
    method GetEntry(key: Option<seq<char>>) returns (r: Option<nat>)
      requires Valid()
      ensures key.None? || hash.Length == 0 ==> r.None?
      ensures r.Some? <==> key.Some? && key.value in Contents()
      ensures r.Some? ==> r.value < hash.Length && hash[r.value].key == key && slotOf[key.value] == r.value
    {
      if hash.Length == 0 || key.None? {
        return None;
      }
      var h := ComputeHash(key.value);
      var e: nat := MainPos(h, hash.Length);
      ghost var c := list[e];
      ghost var s := hash[..];
      while true
        invariant e < hash.Length && list[e] == c
        invariant key.value in slotOf ==> list[slotOf[key.value]] == c && pos[e] <= pos[slotOf[key.value]]
        decreases Later(list, pos, c, pos[e])
      {
        LookupStep(s, lastfree, list, pos, slotOf, key.value, e, c);
        assert hash[e] == s[e];
        var next := hash[e].next;
        if hash[e].hash == h && hash[e].key == key {
          return Some(e);
        }
        if next == 0 {
          return None;
        }
        e := e + next;
      }
    }

    /**
     * The free-slot scan of lkH_newkey, from `lastfree` down: the highest slot
     * below it that has never held a key. The caller stores the new `lastfree`.
     */
    method ScanFree() returns (f: Option<nat>)
      requires Valid()
      ensures f.Some? ==> f.value < lastfree && !hash[f.value].used
      ensures f.Some? ==> forall j | f.value < j < lastfree :: hash[j].used
      ensures f.None? ==> forall j | 0 <= j < lastfree :: hash[j].used
    {
      var i: nat := lastfree;
      while i > 0
        invariant i <= lastfree
        invariant forall j | i <= j < lastfree :: hash[j].used
      {
        i := i - 1;
        if !hash[i].used {
          return Some(i);
        }
      }
      return None;
    }

    /** The walk of lkH_newkey from `othern` to the slot whose link leads to `mp`. */
    method FindPred(othern: nat, mp: nat) returns (pred: nat)
      requires Valid() && hash.Length > 0
      requires mp < hash.Length && hash[mp].key.Some? && othern == MainPos(hash[mp].hash, hash.Length) && othern != mp
      ensures pred < hash.Length && hash[pred].next != 0 && pred + hash[pred].next == mp
    {
      pred := othern;
      while pred + hash[pred].next != mp
        invariant pred < hash.Length && pred != mp && list[pred] == list[mp] && pos[pred] <= pos[mp]
        decreases Later(list, pos, list[mp], pos[pred])
      {
        WalkTowards(hash[..], lastfree, list, pos, pred, mp);
        WalkStep(hash[..], list, pos, pred);
        pred := pred + hash[pred].next;
      }
    }

    /**
     * One pass of lkH_newkey from its `redo` label: the key goes to its main
     * position when that holds no key; otherwise to the free slot `f` after
     * the main-position key (when that key is at its own main position), or
     * the main-position key moves to `f` and the new key takes its place.
     * None when no free slot is left, which is where lkH_newkey resizes.
     */
    method TryInsert(k: seq<char>, h: bv32, v: Option<V>) returns (r: Option<nat>)
      requires Valid() && hash.Length > 0 && k !in slotOf && h == CalcHash(k)
      modifies this, hash
      ensures hash == old(hash) && Valid()
      ensures r.Some? ==> r.value < hash.Length && k in slotOf && slotOf[k] == r.value
      ensures r.Some? ==> Contents() == old(Contents())[k := v]
      ensures r.None? ==> hash[..] == old(hash[..]) && slotOf == old(slotOf) && |UsedSet(hash[..])| == hash.Length
      ensures |UsedSet(hash[..])| <= old(|UsedSet(hash[..])|) + 1
      ensures old(|UsedSet(hash[..])|) < hash.Length ==> r.Some?
    {
      var mp := MainPos(h, hash.Length);
      if hash[mp].key.None? {
        InsertAtMain(mp, k, h, v);
        return Some(mp);
      }
      r := InsertCollided(mp, k, h, v);
    }

    /** lkH_newkey when the main position `mp` already holds a key. */
    method InsertCollided(mp: nat, k: seq<char>, h: bv32, v: Option<V>) returns (r: Option<nat>)
      requires Valid() && hash.Length > 0 && k !in slotOf && h == CalcHash(k)
      requires mp == MainPos(h, hash.Length) && hash[mp].key.Some?
      modifies this, hash
      ensures hash == old(hash) && Valid()
      ensures r.Some? ==> r.value < hash.Length && k in slotOf && slotOf[k] == r.value
      ensures r.Some? ==> Contents() == old(Contents())[k := v]
      ensures r.None? ==> hash[..] == old(hash[..]) && slotOf == old(slotOf) && |UsedSet(hash[..])| == hash.Length
      ensures |UsedSet(hash[..])| <= old(|UsedSet(hash[..])|) + 1
    {
      var f := ScanFree();
      r := InsertIntoFree(mp, f, k, h, v);
    }

    /** lkH_newkey once the scan has found the free slot `f`: case 2 or case 3. */
    method InsertIntoFree(mp: nat, fo: Option<nat>, k: seq<char>, h: bv32, v: Option<V>) returns (r: Option<nat>)
      requires Valid() && hash.Length > 0 && k !in slotOf && h == CalcHash(k)
      requires fo.Some? ==> fo.value < lastfree && !hash[fo.value].used && forall j | fo.value < j < lastfree :: hash[j].used
      requires fo.None? ==> forall j | 0 <= j < lastfree :: hash[j].used
      requires mp == MainPos(h, hash.Length) && hash[mp].key.Some?
      modifies this, hash
      ensures hash == old(hash) && Valid()
      ensures r.Some? ==> r.value < hash.Length && k in slotOf && slotOf[k] == r.value
      ensures r.Some? ==> Contents() == old(Contents())[k := v]
      ensures r.None? ==> hash[..] == old(hash[..]) && slotOf == old(slotOf) && |UsedSet(hash[..])| == hash.Length
      ensures |UsedSet(hash[..])| <= old(|UsedSet(hash[..])|) + 1
    {
      if fo.None? {
        NoneFree(hash[..], lastfree, list, pos, slotOf);
        return None;
      }
      var f := fo.value;
      var othern := MainPos(hash[mp].hash, hash.Length);
      if othern != mp {
        var pred := FindPred(othern, mp);
        InsertMoving(mp, f, pred, k, h, v);
        return Some(mp);
      }
      InsertAfterMain(mp, f, k, h, v);
      return Some(f);
    }

    /** Case 1 of lkH_newkey: the main position `mp` holds no key. */
    method InsertAtMain(mp: nat, k: seq<char>, h: bv32, v: Option<V>)
      requires Valid() && hash.Length > 0 && k !in slotOf && h == CalcHash(k)
      requires mp == MainPos(h, hash.Length) && hash[mp].key.None?
      modifies this, hash
      ensures hash == old(hash) && Valid()
      ensures k in slotOf && slotOf[k] == mp
      ensures Contents() == old(Contents())[k := v]
      ensures |UsedSet(hash[..])| <= old(|UsedSet(hash[..])|) + 1
    {
      ghost var slotOf' := AtMainStep(hash[..], lastfree, list, pos, slotOf, mp, k, h, v);
      WriteAtMain(mp, k, h, v, slotOf');
    }

    /** Case 2 of lkH_newkey: `mp` holds a key of its own chain; the new key goes to `f`, linked after it. */
    method InsertAfterMain(mp: nat, f: nat, k: seq<char>, h: bv32, v: Option<V>)
      requires Valid() && hash.Length > 0 && k !in slotOf && h == CalcHash(k)
      requires f < lastfree && !hash[f].used && forall j | f < j < lastfree :: hash[j].used
      requires mp == MainPos(h, hash.Length) && hash[mp].key.Some? && MainPos(hash[mp].hash, hash.Length) == mp
      modifies this, hash
      ensures hash == old(hash) && Valid()
      ensures k in slotOf && slotOf[k] == f
      ensures Contents() == old(Contents())[k := v]
      ensures |UsedSet(hash[..])| <= old(|UsedSet(hash[..])|) + 1
    {
      InvLowered(hash[..], lastfree, f + 1, list, pos, slotOf);
      ghost var list', pos', slotOf' := AfterMainStep(hash[..], f, list, pos, slotOf, mp, f, k, h, v);
      WriteAfterMain(mp, f, k, h, v, list', pos', slotOf');
    }

    /** Case 3 of lkH_newkey: `mp` holds a key of another chain, which moves to `f`. */
    method InsertMoving(mp: nat, f: nat, pred: nat, k: seq<char>, h: bv32, v: Option<V>)
      requires Valid() && hash.Length > 0 && k !in slotOf && h == CalcHash(k)
      requires f < lastfree && !hash[f].used && forall j | f < j < lastfree :: hash[j].used
      requires mp == MainPos(h, hash.Length) && hash[mp].key.Some? && MainPos(hash[mp].hash, hash.Length) != mp
      requires pred < hash.Length && hash[pred].next != 0 && pred + hash[pred].next == mp
      modifies this, hash
      ensures hash == old(hash) && Valid()
      ensures k in slotOf && slotOf[k] == mp
      ensures Contents() == old(Contents())[k := v]
      ensures |UsedSet(hash[..])| <= old(|UsedSet(hash[..])|) + 1
    {
      InvLowered(hash[..], lastfree, f + 1, list, pos, slotOf);
      ghost var list', pos', slotOf' := MoveStep(hash[..], f, list, pos, slotOf, mp, f, pred, k, h, v);
      WriteMove(mp, f, pred, k, h, v, list', pos', slotOf');
    }

    /** The writes of lkH_newkey when the main position `mp` is free. */
    method WriteAtMain(mp: nat, k: seq<char>, h: bv32, v: Option<V>, ghost slotOf': map<seq<char>, nat>)
      requires mp < hash.Length
      modifies this, hash
      ensures hash == old(hash) && lastfree == old(lastfree) && list == old(list) && pos == old(pos)
      ensures hash[..] == old(hash[..])[mp := Placed(old(hash[mp]), k, h, v)]
      ensures slotOf == slotOf'
    {
      hash[mp] := Placed(hash[mp], k, h, v);
      slotOf := slotOf';
    }

    /** The writes of lkH_newkey when the main-position key moves to the free slot `f`. */
    method WriteMove(mp: nat, f: nat, pred: nat, k: seq<char>, h: bv32, v: Option<V>,
                     ghost list': seq<nat>, ghost pos': seq<nat>, ghost slotOf': map<seq<char>, nat>)
      requires mp < hash.Length && f < hash.Length && pred < hash.Length
      requires mp != f && pred != f && pred != mp
      modifies this, hash
      ensures hash == old(hash) && lastfree == f
      ensures hash[..] == AfterMove(old(hash[..]), mp, f, pred, k, h, v)
      ensures list == list' && pos == pos' && slotOf == slotOf'
    {
      hash[pred] := hash[pred].(next := f - pred);
      hash[f] := hash[mp];
      if hash[mp].next != 0 {
        hash[f] := hash[f].(next := hash[f].next + mp - f);
        hash[mp] := hash[mp].(next := 0);
      }
      hash[mp] := Placed(hash[mp], k, h, v);
      lastfree, list, pos, slotOf := f, list', pos', slotOf';
    }

    /** The writes of lkH_newkey when the new key goes to the free slot `f`, linked after `mp`. */
    method WriteAfterMain(mp: nat, f: nat, k: seq<char>, h: bv32, v: Option<V>,
                          ghost list': seq<nat>, ghost pos': seq<nat>, ghost slotOf': map<seq<char>, nat>)
      requires mp < hash.Length && f < hash.Length && mp != f
      modifies this, hash
      ensures hash == old(hash) && lastfree == f
      ensures hash[..] == AfterMain(old(hash[..]), mp, f, k, h, v)
      ensures list == list' && pos == pos' && slotOf == slotOf'
    {
      if hash[mp].next != 0 {
        hash[f] := hash[f].(next := mp + hash[mp].next - f);
      }
      hash[mp] := hash[mp].(next := f - mp);
      hash[f] := Placed(hash[f], k, h, v);
      lastfree, list, pos, slotOf := f, list', pos', slotOf';
    }

    /** lkH_countsize: the number of slots holding a key. */
    method CountSize() returns (count: nat)
      ensures count == LiveCount(hash[..])
    {
      count := 0;
      var i := 0;
      while i < hash.Length
        invariant 0 <= i <= hash.Length
        invariant count == LiveCount(hash[..i])
      {
        assert hash[..i + 1][..i] == hash[..i];
        if hash[i].key.Some? {
          count := count + 1;
        }
        i := i + 1;
      }
      assert hash[..i] == hash[..];
    }

    /**
     * lk_resizetable: a new array of lkH_hashsize(len) slots, every key of the
     * old one inserted into it again with its stored hash.
     */
    method Resize(len: nat) returns (size: nat)
      requires Valid() && len <= MAX_HASHSIZE && LiveCount(hash[..]) <= HashSize(len)
      modifies this
      ensures Valid() && fresh(hash) && size == hash.Length == HashSize(len)
      ensures Contents() == old(Contents())
      ensures |UsedSet(hash[..])| <= old(LiveCount(hash[..]))
    {
      var old0 := hash;
      ghost var s0, slotOf0 := hash[..], slotOf;
      size := ComputeHashSize(len);
      HashSizeFits(len);
      TableSizeStep(size);
      Allocate(size);
      ReinsertAll(old0, s0, slotOf0);
    }

    /** The lk_resizetable loop: every key of the old array `src` goes into the new, empty one. */
    method ReinsertAll(src: array<Entry<V>>, ghost s0: seq<Entry<V>>, ghost slotOf0: map<seq<char>, nat>)
      requires src != hash && src[..] == s0 && Keys(s0, slotOf0) && HashesMatch(s0)
      requires Valid() && LiveCount(s0) <= hash.Length
      requires Contents() == map[] && |UsedSet(hash[..])| == 0
      modifies this, hash
      ensures hash == old(hash) && Valid()
      ensures Contents() == MapOf(s0, slotOf0) && |UsedSet(hash[..])| <= LiveCount(s0)
    {
      assert s0[..0] == [];
      var i := 0;
      while i < src.Length
        invariant 0 <= i <= src.Length == |s0|
        invariant hash == old(hash) && src[..] == s0
        invariant Valid() && Contents() == Reinserted(s0, slotOf0, i)
        invariant |UsedSet(hash[..])| <= LiveCount(s0[..i])
      {
        ReinsertSlot(src, s0, slotOf0, i);
        i := i + 1;
      }
      assert s0[..i] == s0;
      ReinsertedAll(s0, slotOf0);
    }

    /** The empty table lk_resizetable starts from: `size` zeroed slots, all of them free. */
    method Allocate(size: nat)
      requires IsTableSize(size)
      modifies this
      ensures fresh(hash) && hash.Length == size && Valid()
      ensures Contents() == map[] && |UsedSet(hash[..])| == 0
    {
      hash := new Entry<V>[size](i => EmptyEntry());
      list, pos := FreshInv(hash[..]);
      lastfree, slotOf := size, map[];
    }

    /** One step of the lk_resizetable loop: slot `i` of the old array, when it holds a key, goes into the new one. */
    method ReinsertSlot(src: array<Entry<V>>, ghost s0: seq<Entry<V>>, ghost slotOf0: map<seq<char>, nat>, i: nat)
      requires src != hash && src[..] == s0 && i < |s0| && Keys(s0, slotOf0) && HashesMatch(s0)
      requires Valid() && LiveCount(s0) <= hash.Length
      requires Contents() == Reinserted(s0, slotOf0, i) && |UsedSet(hash[..])| <= LiveCount(s0[..i])
      modifies this, hash
      ensures hash == old(hash) && Valid()
      ensures Contents() == Reinserted(s0, slotOf0, i + 1) && |UsedSet(hash[..])| <= LiveCount(s0[..i + 1])
    {
      assert s0[..i + 1][..i] == s0[..i];
      ReinsertedStep(s0, slotOf0, i);
      if src[i].key.Some? {
        LiveCountPrefix(s0, i);
        var r := TryInsert(src[i].key.value, src[i].hash, src[i].value);
      }
    }

    /**
     * lkH_newkey: allocates the first array when there is none, and grows the
     * table (to lkH_hashsize of twice the live count) when no slot is free.
     */
    method NewKey(k: seq<char>, h: bv32, v: Option<V>) returns (r: Option<nat>)
      requires Valid() && k !in slotOf && h == CalcHash(k) && hash.Length <= MAX_TABLE
      modifies this, hash
      ensures Valid() && r.Some? && r.value < hash.Length && k in slotOf && slotOf[k] == r.value
      ensures hash[r.value].key == Some(k)
      ensures Contents() == old(Contents())[k := v]
      ensures hash == old(hash) || fresh(hash)
      ensures hash.Length <= 4 * old(hash.Length) + 5 * MIN_HASHSIZE
    {
      if hash.Length == 0 {
        var size := Resize(MIN_HASHSIZE);
      }
      r := InsertOrGrow(k, h, v);
    }

    /** From the `redo` label of lkH_newkey on, with an array in place. */
    method InsertOrGrow(k: seq<char>, h: bv32, v: Option<V>) returns (r: Option<nat>)
      requires Valid() && 0 < hash.Length <= MAX_TABLE && k !in slotOf && h == CalcHash(k)
      modifies this, hash
      ensures Valid() && r.Some? && r.value < hash.Length && k in slotOf && slotOf[k] == r.value
      ensures Contents() == old(Contents())[k := v]
      ensures hash == old(hash) || fresh(hash)
      ensures hash.Length <= 4 * old(hash.Length) + MIN_HASHSIZE
    {
      r := TryInsert(k, h, v);
      if r.None? {
        r := GrowAndInsert(k, h, v);
      }
    }

    /** The full-table path of lkH_newkey: resize to twice the live count, then insert. */
    method GrowAndInsert(k: seq<char>, h: bv32, v: Option<V>) returns (r: Option<nat>)
      requires Valid() && 0 < hash.Length <= MAX_TABLE && k !in slotOf && h == CalcHash(k)
      modifies this
      ensures Valid() && r.Some? && r.value < hash.Length && k in slotOf && slotOf[k] == r.value
      ensures Contents() == old(Contents())[k := v]
      ensures hash == old(hash) || fresh(hash)
      ensures hash.Length <= 4 * old(hash.Length) + MIN_HASHSIZE
    {
      var count := CountSize();
      HashSizeFits(count * 2);
      TableSizeStep(HashSize(count * 2));
      ghost var c0 := Contents();
      assert k !in c0;
      var size := Resize(count * 2);
      assert Contents() == c0 && |UsedSet(hash[..])| < hash.Length;
      assert k !in slotOf;
      r := TryInsert(k, h, v);
    }

    /**
     * lk_setentry: the slot of `key`, inserting it with no value when it is
     * absent; an existing entry comes back untouched; NULL for a NULL key.
     */
    method SetEntry(key: Option<seq<char>>) returns (r: Option<nat>)
      requires Valid() && hash.Length <= MAX_TABLE
      modifies this, hash
      ensures Valid()
      ensures hash == old(hash) || fresh(hash)
      ensures hash.Length <= 4 * old(hash.Length) + 5 * MIN_HASHSIZE
      ensures key.None? <==> r.None?
      ensures r.Some? ==> r.value < hash.Length && hash[r.value].key == key
      ensures key.Some? && key.value !in old(Contents()) ==> Contents() == old(Contents())[key.value := None]
      ensures key.None? || key.value in old(Contents()) ==>
                hash == old(hash) && hash[..] == old(hash[..]) && Contents() == old(Contents())
    {
      if key.None? {
        return None;
      }
      r := GetEntry(key);
      if r.Some? {
        return r;
      }
      var h := ComputeHash(key.value);
      r := NewKey(key.value, h, None);
    }

    /** The caller's `e->value = v` on an entry lk_setentry or lk_getentry returned. */
    method SetValue(i: nat, v: Option<V>)
      requires Valid() && i < hash.Length && hash[i].key.Some?
      modifies hash
      ensures Valid() && hash[i].key == old(hash[i].key)
      ensures Contents() == old(Contents())[hash[i].key.value := v]
    {
      ghost var s0 := hash[..];
      ghost var s1 := s0[i := s0[i].(value := v)];
      SetValueKeeps(s0, lastfree, list, pos, slotOf, i, v);
      MapSetValue(s0, slotOf, i, v);
      hash[i] := hash[i].(value := v);
      assert hash[..] == s1;
    }

    /**
     * lk_delentry: the entry loses its key, hash and value; its link stays, so
     * the chain through it is kept, and the slot counts as used from then on.
     */
    method DelEntry(i: nat)
      requires Valid() && i < hash.Length
      modifies this, hash
      ensures Valid() && hash == old(hash)
      ensures hash[i].key.None?
      ensures Contents() == if old(hash[i].key).Some? then old(Contents()) - {old(hash[i].key.value)} else old(Contents())
    {
      ghost var slotOf' := ClearStep(hash[..], lastfree, list, pos, slotOf, i);
      WriteCleared(i, slotOf');
    }

    method WriteCleared(i: nat, ghost slotOf': map<seq<char>, nat>)
      requires i < hash.Length
      modifies this, hash
      ensures hash == old(hash) && lastfree == old(lastfree) && list == old(list) && pos == old(pos)
      ensures hash[..] == old(hash[..])[i := Cleared(old(hash[i]))] && slotOf == slotOf'
    {
      hash[i] := Cleared(hash[i]);
      slotOf := slotOf';
    }

    /**
     * lk_nextentry: the first slot after `prev` (from slot 0 when there is
     * none) that holds a key; None when there is none left.
     */
    method NextEntry(prev: Option<nat>) returns (r: Option<nat>)
      requires prev.Some? ==> prev.value < hash.Length
      ensures r.Some? ==> NextStart(prev) <= r.value < hash.Length && hash[r.value].key.Some?
      ensures r.Some? ==> forall j | NextStart(prev) <= j < r.value :: hash[j].key.None?
      ensures r.None? ==> forall j | NextStart(prev) <= j < hash.Length :: hash[j].key.None?
      ensures prev.None? && Valid() ==> (r.None? <==> Contents() == map[])
    {
      var i := NextStart(prev);
      while i < hash.Length
        invariant NextStart(prev) <= i <= hash.Length
        invariant forall j | NextStart(prev) <= j < i :: hash[j].key.None?
      {
        if hash[i].key.Some? {
          if prev.None? && Valid() {
            EntryKeyed(hash[..], slotOf, i);
          }
          return Some(i);
        }
        i := i + 1;
      }
      if prev.None? && Valid() {
        NoneKeyed(hash[..], slotOf);
      }
      return None;
    }
  }

  /** The entries of `s` below slot `i`, as a map: what lk_resizetable has reinserted so far. */
  ghost function Reinserted<V>(s: seq<Entry<V>>, slotOf: map<seq<char>, nat>, i: nat): map<seq<char>, Option<V>>
  {
    map k | k in slotOf && slotOf[k] < i && slotOf[k] < |s| :: s[slotOf[k]].value
  }

  lemma ReinsertedStep<V>(s: seq<Entry<V>>, slotOf: map<seq<char>, nat>, i: nat)
    requires Keys(s, slotOf) && HashesMatch(s) && i < |s|
    ensures s[i].key.Some? ==> s[i].key.value !in Reinserted(s, slotOf, i) && s[i].hash == CalcHash(s[i].key.value)
    ensures Reinserted(s, slotOf, i + 1)
         == if s[i].key.Some? then Reinserted(s, slotOf, i)[s[i].key.value := s[i].value] else Reinserted(s, slotOf, i)
  {
    forall k | k in slotOf && slotOf[k] == i
      ensures s[i].key == Some(k)
    {
    }
  }

  lemma ReinsertedAll<V>(s: seq<Entry<V>>, slotOf: map<seq<char>, nat>)
    requires SlotsHold(s, slotOf)
    ensures Reinserted(s, slotOf, |s|) == MapOf(s, slotOf)
  {
  }

  /** When the scan below `lastfree` finds no free slot, every slot has held a key. */
  lemma NoneFree<V>(s: seq<Entry<V>>, lastfree: nat, list: seq<nat>, pos: seq<nat>, slotOf: map<seq<char>, nat>)
    requires Inv(s, lastfree, list, pos, slotOf) && forall j | 0 <= j < lastfree :: s[j].used
    ensures |UsedSet(s)| == |s|
  {
    AllUsed(s);
  }

  /** Where lk_nextentry starts scanning: just after `prev`, or at slot 0. */
  function NextStart(prev: Option<nat>): nat
  {
    if prev.Some? then prev.value + 1 else 0
  }

  /** A slot holding a key puts that key in the map view. */
  lemma EntryKeyed<V>(s: seq<Entry<V>>, slotOf: map<seq<char>, nat>, i: nat)
    requires KeyEntries(s, slotOf) && i < |s| && s[i].key.Some?
    ensures MapOf(s, slotOf) != map[]
  {
    assert s[i].key.value in MapOf(s, slotOf);
  }

  /** With no slot holding a key, the map view is empty. */
  lemma NoneKeyed<V>(s: seq<Entry<V>>, slotOf: map<seq<char>, nat>)
    requires SlotsHold(s, slotOf) && forall j | 0 <= j < |s| :: s[j].key.None?
    ensures MapOf(s, slotOf) == map[]
  {
    assert slotOf == map[];
  }

  /** lk_setentry of `x`, then of `y`: both are in the table, and so is every key it held. */
  method SetTwo(t: Table<int>, x: seq<char>, y: seq<char>)
    requires t.Valid() && t.hash.Length <= MAX_TABLE / 8
    modifies t, t.hash
    ensures t.Valid() && x in t.Contents() && y in t.Contents()
    ensures forall k | k in old(t.Contents()) :: k in t.Contents()
    ensures t.hash.Length <= 16 * old(t.hash.Length) + 25 * MIN_HASHSIZE
    ensures t.hash == old(t.hash) || fresh(t.hash)
  {
    var rx := t.SetEntry(Some(x));
    var ry := t.SetEntry(Some(y));
  }

  /**
   * lk_setentry of `k`, the caller storing `v` in the entry, then
   * lk_getentry of `k`: the lookup finds the very entry the insert returned.
   */
  method SetThenFind(t: Table<int>, k: seq<char>, v: int) returns (slot: Option<nat>, got: Option<nat>)
    requires t.Valid() && t.hash.Length <= MAX_TABLE
    modifies t, t.hash
    ensures slot.Some? && got == slot
    ensures k in t.Contents() && t.Contents()[k] == Some(v)
    ensures t.hash.Length == 0 || IsTableSize(t.hash.Length)
  {
    slot := t.SetEntry(Some(k));
    t.SetValue(slot.value, Some(v));
    got := t.GetEntry(Some(k));
  }

  /** A new table after lk_setentry of "D", "L", "A" and "I". */
  method FourKeys() returns (t: Table<int>)
    ensures fresh(t) && fresh(t.hash) && t.Valid() && t.hash.Length <= MAX_TABLE
    ensures "D" in t.Contents() && "L" in t.Contents()
  {
    t := new Table<int>();
    SetTwo(t, "D", "L");
    SetTwo(t, "A", "I");
  }

  /** lk_delentry on the entry lk_getentry finds for `del`: `keep` stays in the table. */
  method RemoveKey(t: Table<int>, del: seq<char>, keep: seq<char>)
    requires t.Valid() && del in t.Contents() && keep in t.Contents() && keep != del
    modifies t, t.hash
    ensures t.Valid() && keep in t.Contents() && t.hash == old(t.hash)
  {
    var g := t.GetEntry(Some(del));
    t.DelEntry(g.value);
  }

  /**
   * The sequence of calls that loses a key in the table as loki.h writes it: set "D", "L",
   * "A" and "I", delete the entry of "D", set "Q". Here "L" is still found.
   */
  method ReuseKeepsKey() returns (found: Option<nat>)
    ensures found.Some?
  {
    var t := FourKeys();
    RemoveKey(t, "D", "L");
    var q := t.SetEntry(Some("Q"));
    found := t.GetEntry(Some("L"));
  }
}
