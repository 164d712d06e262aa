/**
 * The growable character buffer of loki.h (lk_Buffer).
 *
 * A buffer starts on its inline storage of LK_BUFFERSIZE characters and moves
 * to heap storage when an append does not fit; the heap capacity is the least
 * LK_BUFFERSIZE * 2^k that holds the new size.
 */
module LkBuffer {

  const BUFFER_SIZE: nat := 1024
  /** ~(size_t)0 / 2 on a 64-bit size_t: the growth loop stops doubling here. */
  const HALF_SIZE_MAX: nat := 0x7FFF_FFFF_FFFF_FFFF
  /** Largest size the growth loop can still reach: 2^63. */
  const MAX_GROWTH: nat := 0x8000_0000_0000_0000

  /** A capacity the buffer can have: LK_BUFFERSIZE times a power of two. */
  ghost predicate IsCapacity(c: nat)
    decreases c
  {
    c == BUFFER_SIZE || (c > BUFFER_SIZE && c % 2 == 0 && IsCapacity(c / 2))
  }

  /** The capacity the doubling loop of lk_prepbuffsize reaches from `n` for `need` characters. */
  function Grow(n: nat, need: nat): (r: nat)
    requires n >= BUFFER_SIZE
    decreases need - n
  {
    if n < need && n < HALF_SIZE_MAX then Grow(2 * n, need) else n
  }

  lemma {:induction false} GrowIsCapacity(n: nat, need: nat)
    requires n >= BUFFER_SIZE && IsCapacity(n)
    ensures IsCapacity(Grow(n, need))
    decreases need - n
  {
    if n < need && n < HALF_SIZE_MAX {
      assert (2 * n) / 2 == n;
      GrowIsCapacity(2 * n, need);
    }
  }

  /** The grown capacity holds `need` characters, and it is the least capacity that does. */
  lemma {:induction false} GrowFits(n: nat, need: nat)
    requires n >= BUFFER_SIZE && IsCapacity(n)
    requires need <= MAX_GROWTH
    ensures Grow(n, need) >= need && Grow(n, need) >= n
    ensures Grow(n, need) > n ==> Grow(n, need) / 2 < need
    decreases need - n
  {
    if n < need && n < HALF_SIZE_MAX {
      assert (2 * n) / 2 == n;
      GrowFits(2 * n, need);
    } else if n < need {
      CapacityIsEven(n);
    }
  }

  lemma CapacityIsEven(c: nat)
    requires IsCapacity(c)
    ensures c % 2 == 0
  {
  }

  /** The C `int` that lk_addlstring's size_t result converts to (32-bit two's complement). */
  function ToCInt(x: nat): (r: int)
    ensures -0x8000_0000 <= r < 0x8000_0000
    ensures (r - x) % 0x1_0000_0000 == 0
  {
    var m := x % 0x1_0000_0000;
    if m >= 0x8000_0000 then m - 0x1_0000_0000 else m
  }

  /** `s` with every `orig` replaced by `repl`, as lk_replacebuffer leaves the contents. */
  function Replaced(s: seq<char>, orig: char, repl: char): (r: seq<char>)
  {
    seq(|s|, i requires 0 <= i < |s| => if s[i] == orig then repl else s[i])
  }

  class Buffer {
    var size: nat
    var capacity: nat
    var buff: array<char>
    /** the inline `init_buff` of the struct */
    const initBuff: array<char>

    ghost predicate Valid()
      reads this
    {
      && initBuff.Length == BUFFER_SIZE
      && buff.Length == capacity
      && size <= capacity
      && IsCapacity(capacity)
      && (buff == initBuff ==> capacity == BUFFER_SIZE)
    }

    /** The characters appended so far. */
    ghost function Contents(): seq<char>
      reads this, buff
      requires Valid()
    {
      buff[..size]
    }

    /** lk_initbuffer */
    constructor ()
      ensures Valid() && Contents() == []
      ensures buff == initBuff && capacity == BUFFER_SIZE
      ensures fresh(initBuff)
    {
      var b := new char[BUFFER_SIZE];
      initBuff := b;
      buff := b;
      size := 0;
      capacity := BUFFER_SIZE;
    }

    /** lk_resetbuffer */
    method Reset()
      requires Valid()
      modifies this
      ensures Valid() && Contents() == []
      ensures buff == old(buff) && capacity == old(capacity)
    {
      size := 0;
    }

    /** lk_freebuffer: drops heap storage and goes back to the inline storage, empty. */
    method Free()
      requires Valid()
      modifies this
      ensures Valid() && Contents() == []
      ensures buff == initBuff && capacity == BUFFER_SIZE
    {
      buff := initBuff;
      size := 0;
      capacity := BUFFER_SIZE;
    }

    /**
     * lk_prepbuffsize: makes room for `len` more characters and returns the
     * position they go to. The contents are kept; when the room was missing the
     * capacity becomes the least LK_BUFFERSIZE * 2^k that holds size + len.
     * The C code writes past the end if size + len exceeds 2^63.
     */
    method PrepSize(len: nat) returns (pos: nat)
      requires Valid()
      requires size + len <= MAX_GROWTH
      modifies this
      ensures Valid()
      ensures pos == size == old(size)
      ensures capacity >= size + len
      ensures Contents() == old(Contents())
      ensures old(size) + len <= old(capacity) ==> buff == old(buff) && capacity == old(capacity)
      ensures old(size) + len > old(capacity) ==>
                fresh(buff) && capacity == Grow(BUFFER_SIZE, size + len) && capacity / 2 < size + len
    {
      if size + len > capacity {
        var newsize := BUFFER_SIZE;
        while newsize < size + len && newsize < HALF_SIZE_MAX
          invariant newsize >= BUFFER_SIZE && IsCapacity(newsize)
          invariant Grow(newsize, size + len) == Grow(BUFFER_SIZE, size + len)
          decreases size + len - newsize
        {
          assert (2 * newsize) / 2 == newsize;
          newsize := 2 * newsize;
        }
        GrowFits(BUFFER_SIZE, size + len);
        var newptr := new char[newsize];
        forall i | 0 <= i < size {
          newptr[i] := buff[i];
        }
        buff := newptr;
        capacity := newsize;
      }
      pos := size;
    }

    /** lk_addchar */
    method AddChar(ch: char)
      requires Valid()
      requires size + 1 <= MAX_GROWTH
      modifies this, buff
      ensures Valid()
      ensures Contents() == old(Contents()) + [ch]
      ensures buff == old(buff) || fresh(buff)
    {
      var pos := PrepSize(1);
      buff[pos] := ch;
      size := size + 1;
    }

    /**
     * lk_addlstring: appends s[0..len) and returns the new size, converted to
     * the C `int` the function is declared to return.
     */
    method AddLString(s: seq<char>, len: nat) returns (r: int)
      requires Valid()
      requires len <= |s|
      requires size + len <= MAX_GROWTH
      modifies this, buff
      ensures Valid()
      ensures size == old(size) + len
      ensures buff == old(buff) || fresh(buff)
      ensures Contents() == old(Contents()) + s[..len]
      ensures old(size) + len <= old(capacity) ==> buff == old(buff) && capacity == old(capacity)
      ensures old(size) + len > old(capacity) ==>
                capacity == Grow(BUFFER_SIZE, size) && capacity / 2 < size
      ensures r == ToCInt(size)
    {
      var pos := PrepSize(len);
      ghost var before := buff[..size];
      forall i | 0 <= i < len {
        buff[pos + i] := s[i];
      }
      size := size + len;
      assert buff[..size] == before + s[..len];
      r := ToCInt(size);
    }

    /** lk_replacebuffer: replaces every `orig` in the contents by `repl`. */
    method Replace(orig: char, repl: char)
      requires Valid()
      modifies buff
      ensures Valid()
      ensures Contents() == Replaced(old(Contents()), orig, repl)
    {
      var i := 0;
      while i < size
        invariant 0 <= i <= size
        invariant forall k :: 0 <= k < i ==> buff[k] == (if old(buff[k]) == orig then repl else old(buff[k]))
        invariant forall k :: i <= k < buff.Length ==> buff[k] == old(buff[k])
      {
        if buff[i] == orig {
          buff[i] := repl;
        }
        i := i + 1;
      }
      assert buff[..size] == Replaced(old(buff[..size]), orig, repl);
    }

    /**
     * lk_buffresult: a fresh copy of the contents followed by NUL; the buffer is
     * then freed back to its empty inline state.
     */
    method Result() returns (r: array<char>)
      requires Valid()
      modifies this
      ensures Valid() && Contents() == []
      ensures buff == initBuff && capacity == BUFFER_SIZE
      ensures fresh(r)
      ensures r[..] == old(Contents()) + ['\0']
    {
      r := new char[size + 1];
      forall i | 0 <= i < size {
        r[i] := buff[i];
      }
      r[size] := '\0';
      Free();
    }
  }

  /** What is left of the contents after a replacement: no `orig`, everything else in place. */
  lemma ReplacedMeaning(s: seq<char>, orig: char, repl: char)
    requires orig != repl
    ensures |Replaced(s, orig, repl)| == |s|
    ensures orig !in Replaced(s, orig, repl)
    ensures forall i :: 0 <= i < |s| && s[i] != orig ==> Replaced(s, orig, repl)[i] == s[i]
    ensures forall i :: 0 <= i < |s| && s[i] == orig ==> Replaced(s, orig, repl)[i] == repl
  {
  }
}
