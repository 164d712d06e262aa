/**
 * The runtime's configuration: `S->config`, an lk_Table from key strings to
 * value strings, written by lk_setconfig and read by lk_getconfig.
 */
module LkConfig {
  import opened Wrappers
  import opened LkHashTable

  /** Every key of the configuration table carries a value: lk_setconfig never leaves one NULL. */
  ghost predicate ConfigValid(config: Table<seq<char>>)
    reads config, config.hash
  {
    config.Valid() && AllSet(config.Contents())
  }

  ghost predicate AllSet(m: map<seq<char>, Option<seq<char>>>)
  {
    forall k | k in m :: m[k].Some?
  }

  /**
   * lk_getconfig: a copy of the value stored under `key`; NULL when the key
   * is NULL or not configured.
   */
  method GetConfig(config: Table<seq<char>>, key: Option<seq<char>>) returns (value: Option<seq<char>>)
    requires ConfigValid(config)
    ensures value.Some? <==> key.Some? && key.value in config.Contents()
    ensures value.Some? ==> Some(value.value) == config.Contents()[key.value]
  {
    var e := config.GetEntry(key);
    if e.Some? {
      value := config.hash[e.value].value;
    } else {
      value := None;
    }
  }

  /**
   * lk_setconfig: `key` maps to `value` afterwards, whether the old value
   * buffer was long enough to be overwritten in place or a new key/value
   * buffer replaced it; every other key keeps its value.
   */
  method SetConfig(config: Table<seq<char>>, key: seq<char>, value: seq<char>)
    requires ConfigValid(config) && config.hash.Length <= MAX_TABLE
    modifies config, config.hash
    ensures ConfigValid(config)
    ensures config.Contents() == old(config.Contents())[key := Some(value)]
  {
    ghost var c0 := config.Contents();
    var e := config.SetEntry(Some(key));
    ghost var c1 := config.Contents();
    assert c1 == c0[key := None] || (key in c0 && c1 == c0);
    // Whether the old value buffer is overwritten in place (it is at least as
    // long as `value`) or a fresh "key\0value\0" buffer replaces the entry's
    // key and value, the entry reads back as `key` mapped to `value`.
    config.SetValue(e.value, Some(value));
    ghost var c2 := config.Contents();
    assert c2 == c1[key := Some(value)];
    Overwritten(c0, c1, c2, key, value);
  }

  /** A value set with lk_setconfig is what lk_getconfig reads back; other keys read as before. */
  method SetThenGet(config: Table<seq<char>>, key: seq<char>, value: seq<char>, other: seq<char>)
      returns (got: Option<seq<char>>, gotOther: Option<seq<char>>)
    requires ConfigValid(config) && config.hash.Length <= MAX_TABLE
    modifies config, config.hash
    ensures got == Some(value)
    ensures other != key ==> gotOther.Some? == (other in old(config.Contents()))
    ensures other != key && gotOther.Some? ==> Some(gotOther.value) == old(config.Contents())[other]
  {
    ghost var c0 := config.Contents();
    SetConfig(config, key, value);
    UpdateKeepsOthers(c0, key, value, other);
    got := GetConfig(config, Some(key));
    gotOther := GetConfig(config, Some(other));
  }

  /** Updating one key of a map leaves every other key as it was. */
  lemma UpdateKeepsOthers(c0: map<seq<char>, Option<seq<char>>>, key: seq<char>, value: seq<char>, other: seq<char>)
    ensures key in c0[key := Some(value)] && c0[key := Some(value)][key] == Some(value)
    ensures other != key ==> (other in c0[key := Some(value)] <==> other in c0)
    ensures other != key && other in c0 ==> c0[key := Some(value)][other] == c0[other]
  {
  }

  /** Inserting the key with no value, then writing its value, is one map update. */
  lemma Overwritten(c0: map<seq<char>, Option<seq<char>>>, c1: map<seq<char>, Option<seq<char>>>,
                    c2: map<seq<char>, Option<seq<char>>>, key: seq<char>, value: seq<char>)
    requires AllSet(c0)
    requires c1 == c0[key := None] || (key in c0 && c1 == c0)
    requires c2 == c1[key := Some(value)]
    ensures c2 == c0[key := Some(value)] && AllSet(c2)
  {
  }
}
