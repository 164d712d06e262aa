/**
 * String helpers of loki.h: lk_strncpy and lkT_makemodname.
 *
 * A C string is modelled by the characters before its terminating NUL, so a
 * string argument never contains '\0'.
 */
module LkString {
  import opened LkBuffer

  /** The C string held at the start of `buf`: everything before the first NUL. */
  function CString(buf: seq<char>): (r: seq<char>)
    ensures |r| <= |buf|
    ensures '\0' !in r
  {
    if buf == [] || buf[0] == '\0' then [] else [buf[0]] + CString(buf[1..])
  }

  function Zeros(n: nat): (r: seq<char>)
    ensures |r| == n && forall i :: 0 <= i < n ==> r[i] == '\0'
  {
    seq(n, _ => '\0')
  }

  /** The `n` characters lk_strncpy leaves in its destination. */
  function StrNCpyResult(s: seq<char>, n: nat): seq<char>
    requires n >= 1
  {
    if |s| >= n - 1 then s[..n - 1] + ['\0'] else s + Zeros(n - |s|)
  }

  lemma {:induction false} CStringOfTerminated(p: seq<char>, tail: seq<char>)
    requires '\0' !in p
    ensures CString(p + ['\0'] + tail) == p
  {
    if p != [] {
      assert (p + ['\0'] + tail)[1..] == p[1..] + ['\0'] + tail;
      CStringOfTerminated(p[1..], tail);
    }
  }

  /**
   * lk_strncpy always leaves a NUL-terminated copy: the destination reads back
   * as the first n-1 characters of `s`, or all of `s` when it is shorter, and
   * every one of the n characters is written.
   */
  lemma StrNCpyReadsBack(s: seq<char>, n: nat)
    requires n >= 1 && '\0' !in s
    ensures |StrNCpyResult(s, n)| == n
    ensures CString(StrNCpyResult(s, n)) == if |s| >= n - 1 then s[..n - 1] else s
    ensures StrNCpyResult(s, n)[n - 1] == '\0'
  {
    if |s| >= n - 1 {
      assert s[..n - 1] + ['\0'] == s[..n - 1] + ['\0'] + [];
      CStringOfTerminated(s[..n - 1], []);
    } else {
      assert s + Zeros(n - |s|) == s + ['\0'] + Zeros(n - |s| - 1);
      CStringOfTerminated(s, Zeros(n - |s| - 1));
    }
  }

  /**
   * lk_strncpy(dst, n, s): copies at most n-1 characters of `s` and fills the
   * rest of the n characters with NUL. The C code needs n >= 1 (n-1 wraps
   * otherwise) and n characters of room.
   */
  method StrNCpy(dst: array<char>, n: nat, s: seq<char>)
    requires 1 <= n <= dst.Length
    requires '\0' !in s
    modifies dst
    ensures dst[..n] == StrNCpyResult(s, n)
    ensures dst[n..] == old(dst[n..])
  {
    var len := |s|;
    if len >= n - 1 {
      forall i | 0 <= i < n - 1 {
        dst[i] := s[i];
      }
      dst[n - 1] := '\0';
    } else {
      forall i | 0 <= i < len {
        dst[i] := s[i];
      }
      forall i | len <= i < n {
        dst[i] := '\0';
      }
    }
    assert dst[..n] == StrNCpyResult(s, n);
  }

  /** What one character of a path template becomes: `?` is the service name. */
  function Piece(c: char, name: seq<char>): seq<char>
  {
    if c == '?' then name else [c]
  }

  /** A path segment with every `?` replaced by the service name. */
  function Expand(seg: seq<char>, name: seq<char>): seq<char>
  {
    if seg == [] then [] else Expand(seg[..|seg| - 1], name) + Piece(seg[|seg| - 1], name)
  }

  function Count(s: seq<char>, c: char): nat
  {
    if s == [] then 0 else Count(s[..|s| - 1], c) + (if s[|s| - 1] == c then 1 else 0)
  }

  /** Each `?` trades one character for the whole name; everything else is kept. */
  lemma {:induction false} ExpandLength(seg: seq<char>, name: seq<char>)
    ensures |Expand(seg, name)| + Count(seg, '?') == |seg| + Count(seg, '?') * |name|
  {
    if seg != [] {
      var init := seg[..|seg| - 1];
      ExpandLength(init, name);
      if seg[|seg| - 1] == '?' {
        assert (Count(init, '?') + 1) * |name| == Count(init, '?') * |name| + |name|;
      }
    }
  }

  /** A segment without `?` expands to itself. */
  lemma {:induction false} ExpandWithoutWildcard(seg: seq<char>, name: seq<char>)
    requires '?' !in seg
    ensures Expand(seg, name) == seg
  {
    if seg != [] {
      assert seg == seg[..|seg| - 1] + [seg[|seg| - 1]];
      ExpandWithoutWildcard(seg[..|seg| - 1], name);
    }
  }

  /** Expansion distributes over concatenation of template pieces. */
  lemma {:induction false} ExpandAppend(a: seq<char>, b: seq<char>, name: seq<char>)
    ensures Expand(a + b, name) == Expand(a, name) + Expand(b, name)
    decreases |b|
  {
    if b == [] {
      assert a + b == a;
    } else {
      assert (a + b)[..|a + b| - 1] == a + b[..|b| - 1];
      ExpandAppend(a, b[..|b| - 1], name);
    }
  }

  /** A prefix of a segment expands to no more than the whole segment. */
  lemma ExpandPrefix(seg: seq<char>, n: nat, name: seq<char>)
    requires n <= |seg|
    ensures |Expand(seg[..n], name)| <= |Expand(seg, name)|
  {
    assert seg == seg[..n] + seg[n..];
    ExpandAppend(seg[..n], seg[n..], name);
  }

  /** The candidate file name lkT_makemodname leaves in the buffer for one segment. */
  function ModName(seg: seq<char>, name: seq<char>): seq<char>
  {
    var e := Expand(seg, name);
    if e == [] then [] else e + ['\0']
  }

  /** The loop body of lkT_makemodname: the name for a `?`, the character itself otherwise. */
  method AddPiece(B: Buffer, c: char, name: seq<char>)
    requires B.Valid() && B.size + |Piece(c, name)| <= MAX_GROWTH
    modifies B, B.buff
    ensures B.Valid() && B.Contents() == old(B.Contents()) + Piece(c, name)
    ensures B.buff == old(B.buff) || fresh(B.buff)
  {
    if c == '?' {
      var _ := B.AddLString(name, |name|);
      assert name[..|name|] == name;
    } else {
      B.AddChar(c);
    }
  }

  /** The expansion of the first `n` characters of `seg`, counted by index. */
  function ExpandTo(seg: seq<char>, n: nat, name: seq<char>): seq<char>
    requires n <= |seg|
  {
    if n == 0 then [] else ExpandTo(seg, n - 1, name) + Piece(seg[n - 1], name)
  }

  /** Counting by index and expanding the prefix agree. */
  lemma {:induction false} ExpandToPrefix(seg: seq<char>, n: nat, name: seq<char>)
    requires n <= |seg|
    ensures ExpandTo(seg, n, name) == Expand(seg[..n], name)
  {
    if n > 0 {
      ExpandToPrefix(seg, n - 1, name);
      assert seg[..n][..n - 1] == seg[..n - 1];
    }
  }

  /** None of the first `n` characters of `seg` is the `;` separator. */
  predicate NoSep(seg: seq<char>, n: nat)
    requires n <= |seg|
  {
    n == 0 || (seg[n - 1] != ';' && NoSep(seg, n - 1))
  }

  lemma {:induction false} NoSepPrefix(seg: seq<char>, n: nat)
    requires n <= |seg| && NoSep(seg, n)
    ensures ';' !in seg[..n]
  {
    if n > 0 {
      NoSepPrefix(seg, n - 1);
      assert seg[..n] == seg[..n - 1] + [seg[n - 1]];
    }
  }

  /** One pass of the copying loop: the buffer goes from the expansion of `n` characters of `seg` to that of `n + 1`. */
  method AddNext(B: Buffer, seg: seq<char>, n: nat, name: seq<char>)
    requires n < |seg| && |Expand(seg, name)| < MAX_GROWTH
    requires B.Valid() && B.Contents() == ExpandTo(seg, n, name)
    modifies B, B.buff
    ensures B.Valid() && B.Contents() == ExpandTo(seg, n + 1, name)
    ensures B.buff == old(B.buff) || fresh(B.buff)
  {
    ExpandToPrefix(seg, n + 1, name);
    ExpandPrefix(seg, n + 1, name);
    AddPiece(B, seg[n], name);
  }

  /** The end of lkT_makemodname: a NUL after a non-empty candidate, nothing after an empty one. */
  method Terminate(B: Buffer)
    requires B.Valid() && B.size < MAX_GROWTH
    modifies B, B.buff
    ensures B.Valid()
    ensures B.Contents() == if old(B.Contents()) == [] then [] else old(B.Contents()) + ['\0']
  {
    if B.size != 0 {
      B.AddChar('\0');
    }
  }

  /**
   * lkT_makemodname: expands the template text `seg` (the characters from
   * `p[0]` up to `p[1]`) into `B` up to its first `;`, NUL-terminated unless
   * empty, and returns how many template characters it consumed; the C
   * function returns `p[0]` advanced by that many.
   */
  method MakeModName(B: Buffer, seg: seq<char>, name: seq<char>) returns (n: nat)
    requires B.Valid()
    requires |Expand(seg, name)| < MAX_GROWTH
    modifies B, B.buff
    ensures B.Valid()
    ensures n <= |seg|
    ensures n == |seg| || seg[n] == ';'
    ensures ';' !in seg[..n]
    ensures B.Contents() == ModName(seg[..n], name)
  {
    B.Reset();
    n := ExpandSegment(B, seg, name);
    ExpandPrefix(seg, n, name);
    Terminate(B);
  }

  /** The copying loop of lkT_makemodname: appends the expansion of `seg` up to its first `;`. */
  method ExpandSegment(B: Buffer, seg: seq<char>, name: seq<char>) returns (n: nat)
    requires B.Valid() && B.Contents() == []
    requires |Expand(seg, name)| < MAX_GROWTH
    modifies B, B.buff
    ensures B.Valid()
    ensures n <= |seg|
    ensures n == |seg| || seg[n] == ';'
    ensures ';' !in seg[..n]
    ensures B.Contents() == Expand(seg[..n], name)
    ensures B.buff == old(B.buff) || fresh(B.buff)
  {
    n := 0;
    while n < |seg| && seg[n] != ';'
      invariant B.Valid()
      invariant n <= |seg|
      invariant NoSep(seg, n)
      invariant B.Contents() == ExpandTo(seg, n, name)
      invariant B.buff == old(B.buff) || fresh(B.buff)
    {
      AddNext(B, seg, n, name);
      n := n + 1;
    }
    ExpandToPrefix(seg, n, name);
    NoSepPrefix(seg, n);
  }
}
