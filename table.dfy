/**
 * The string-keyed scatter table of loki.h (lk_Table, lk_Entry): an array of
 * entries whose collision chains are relative `next` offsets inside the array,
 * with colliding keys moved to free slots found by a downward `lastfree` scan.
 */
module LkTable {
  import opened Wrappers

  const MIN_HASHSIZE: nat := 8
  /** LK_MAX_SIZET = ~(size_t)0 - 100 on a 64-bit size_t. */
  const MAX_SIZET: nat := 0xFFFF_FFFF_FFFF_FFFF - 100
  /** The largest size the doubling in lkH_hashsize reaches: 2^63. */
  const MAX_HASHSIZE: nat := 0x8000_0000_0000_0000
  /** LK_HASHLIMIT: keys longer than 2^5 are sampled rather than read whole. */
  const HASHLIMIT_LEN: nat := 32

  /** A table size other than 0: LK_MIN_HASHSIZE times a power of two. */
  ghost predicate IsTableSize(n: nat)
    decreases n
  {
    n == MIN_HASHSIZE || (n > MIN_HASHSIZE && n % 2 == 0 && IsTableSize(n / 2))
  }

  /** The size the doubling loop of lkH_hashsize reaches from `n` for `len` entries. */
  function HashGrow(n: nat, len: nat): nat
    requires n >= MIN_HASHSIZE
    decreases len - n
  {
    if n < MAX_SIZET / 2 && n < len then HashGrow(2 * n, len) else n
  }

  /** lkH_hashsize */
  function HashSize(len: nat): nat
  {
    HashGrow(MIN_HASHSIZE, len)
  }

  lemma TableSizeIsEven(n: nat)
    requires IsTableSize(n)
    ensures n % 2 == 0
  {
  }

  lemma TableSizeStep(n: nat)
    requires IsTableSize(n)
    ensures n == MIN_HASHSIZE || n >= 2 * MIN_HASHSIZE
  {
    if n != MIN_HASHSIZE {
      assert IsTableSize(n / 2);
      assert n / 2 == MIN_HASHSIZE || n / 2 > MIN_HASHSIZE;
    }
  }

  /** Table sizes from 64 up are multiples of 64, so none lies in (2^63 - 64, 2^63). */
  lemma {:induction false} TableSizeAligned(n: nat)
    requires IsTableSize(n) && n >= 64
    ensures n % 64 == 0
    decreases n
  {
    assert n > MIN_HASHSIZE && n % 2 == 0 && IsTableSize(n / 2);
    if n / 2 >= 64 {
      TableSizeAligned(n / 2);
    } else {
      var a := n / 2;
      assert 32 <= a < 64 && IsTableSize(a) && a % 2 == 0;
      var b := a / 2;
      assert 16 <= b < 32 && IsTableSize(b) && b % 2 == 0;
      var c := b / 2;
      assert 8 <= c < 16 && IsTableSize(c);
      TableSizeStep(c);
      assert b == 16 && a == 32 && n == 64;
    }
  }

  lemma {:induction false} HashGrowFits(n: nat, len: nat)
    requires n >= MIN_HASHSIZE && IsTableSize(n)
    requires len <= MAX_HASHSIZE
    ensures IsTableSize(HashGrow(n, len))
    ensures HashGrow(n, len) >= len && HashGrow(n, len) >= n
    ensures HashGrow(n, len) > n ==> HashGrow(n, len) / 2 < len
    decreases len - n
  {
    if n < MAX_SIZET / 2 && n < len {
      assert (2 * n) / 2 == n;
      HashGrowFits(2 * n, len);
    } else if n < len {
      TableSizeAligned(n);
    }
  }

  /**
   * The size lkH_hashsize gives is LK_MIN_HASHSIZE times a power of two, holds
   * `len` entries, and is the least such size.
   */
  lemma HashSizeFits(len: nat)
    requires len <= MAX_HASHSIZE
    ensures IsTableSize(HashSize(len)) && HashSize(len) >= len
    ensures HashSize(len) > MIN_HASHSIZE ==> HashSize(len) / 2 < len
  {
    HashGrowFits(MIN_HASHSIZE, len);
  }

  /** lkH_hashsize, with its loop. */
  method ComputeHashSize(len: nat) returns (size: nat)
    ensures size == HashSize(len)
  {
    size := MIN_HASHSIZE;
    while size < MAX_SIZET / 2 && size < len
      invariant size >= MIN_HASHSIZE
      invariant HashGrow(size, len) == HashSize(len)
      decreases len - size
    {
      size := 2 * size;
    }
  }

  /** A character as the unsigned char lkH_calchash adds. */
  function Byte(c: char): bv32
  {
    ((c as int) % 256) as bv32
  }

  /** One round of lkH_calchash: h ^= (h << 5) + (h >> 2) + c, on 32-bit unsigned values. */
  function Mix(h: bv32, b: bv32): bv32
  {
    h ^ ((h << 5) + (h >> 2) + b)
  }

  /** The rounds of lkH_calchash from position `l` down, `step` apart. */
  function HashFrom(s: seq<char>, h: bv32, l: nat, step: nat): bv32
    requires l <= |s| && step >= 1
    decreases l
  {
    if l >= step then HashFrom(s, Mix(h, Byte(s[l - 1])), l - step, step) else h
  }

  /** The sampling step: 1 for keys shorter than 32 characters. */
  function Step(len: nat): nat
  {
    len / HASHLIMIT_LEN + 1
  }

  /** lkH_calchash: seeded with the length (as a 32-bit unsigned), mixes every `step`-th character from the end. */
  function CalcHash(s: seq<char>): bv32
  {
    HashFrom(s, (|s| % 0x1_0000_0000) as bv32, |s|, Step(|s|))
  }

  /** lkH_calchash, with its loop. */
  method ComputeHash(s: seq<char>) returns (h: bv32)
    ensures h == CalcHash(s)
  {
    var step := Step(|s|);
    h := (|s| % 0x1_0000_0000) as bv32;
    var l: nat := |s|;
    while l >= step
      invariant l <= |s|
      invariant HashFrom(s, h, l, step) == CalcHash(s)
    {
      h := Mix(h, Byte(s[l - 1]));
      l := l - step;
    }
  }

  /** The characters the rounds from `l` read agree in `s` and `t`. */
  ghost predicate AgreeOnSamples(s: seq<char>, t: seq<char>, l: nat, step: nat)
    requires l <= |s| && l <= |t| && step >= 1
    decreases l
  {
    l < step || (Byte(s[l - 1]) == Byte(t[l - 1]) && AgreeOnSamples(s, t, l - step, step))
  }

  lemma {:induction false} HashFromSamples(s: seq<char>, t: seq<char>, h: bv32, l: nat, step: nat)
    requires l <= |s| && l <= |t| && step >= 1
    requires AgreeOnSamples(s, t, l, step)
    ensures HashFrom(s, h, l, step) == HashFrom(t, h, l, step)
    decreases l
  {
    if l >= step {
      HashFromSamples(s, t, Mix(h, Byte(s[l - 1])), l - step, step);
    }
  }

  /** Keys of one length that agree on the sampled characters have one hash. */
  lemma SampledKeysCollide(s: seq<char>, t: seq<char>)
    requires |s| == |t| && AgreeOnSamples(s, t, |s|, Step(|s|))
    ensures CalcHash(s) == CalcHash(t)
  {
    HashFromSamples(s, t, (|s| % 0x1_0000_0000) as bv32, |s|, Step(|s|));
  }

  /** Texts that agree below `l` agree on every sample the rounds from `l` read. */
  lemma {:induction false} PrefixAgrees(s: seq<char>, t: seq<char>, l: nat, step: nat)
    requires l <= |s| && l <= |t| && step >= 1 && s[..l] == t[..l]
    ensures AgreeOnSamples(s, t, l, step)
    decreases l
  {
    if l >= step {
      assert s[l - 1] == s[..l][l - 1] && t[l - 1] == t[..l][l - 1];
      assert s[..l - step] == s[..l][..l - step] && t[..l - step] == t[..l][..l - step];
      PrefixAgrees(s, t, l - step, step);
    }
  }

  /** With step 1, the rounds from `l` read every character below `l`. */
  lemma {:induction false} StepOneReadsAll(s: seq<char>, t: seq<char>, l: nat)
    requires l <= |s| && l <= |t|
    ensures AgreeOnSamples(s, t, l, 1) <==> forall i | 0 <= i < l :: Byte(s[i]) == Byte(t[i])
    decreases l
  {
    if l >= 1 {
      StepOneReadsAll(s, t, l - 1);
    }
  }

  /**
   * A key shorter than 2^LK_HASHLIMIT characters is hashed whole: two such keys
   * of one length agree on what lkH_calchash samples exactly when they agree on
   * every character, as unsigned chars.
   */
  lemma ShortKeysReadWhole(s: seq<char>, t: seq<char>)
    requires |s| == |t| < HASHLIMIT_LEN
    ensures Step(|s|) == 1
    ensures AgreeOnSamples(s, t, |s|, Step(|s|)) <==> forall i | 0 <= i < |s| :: Byte(s[i]) == Byte(t[i])
  {
    StepOneReadsAll(s, t, |s|);
  }

  /**
   * A longer key is sampled with a step of at least 2, so lkH_calchash skips
   * its second-to-last character: changing that character keeps the hash.
   */
  lemma LongKeysSkipOne(s: seq<char>, c: char)
    requires |s| >= HASHLIMIT_LEN
    ensures Step(|s|) >= 2
    ensures CalcHash(s[|s| - 2 := c]) == CalcHash(s)
  {
    var t := s[|s| - 2 := c];
    var step := Step(|s|);
    assert s[..|s| - step] == t[..|s| - step];
    PrefixAgrees(s, t, |s| - step, step);
    SampledKeysCollide(s, t);
  }
}
