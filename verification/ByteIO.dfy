/** Little-endian numbers in byte buffers (Read.inl and Write.inl). */
module ByteIO {
  import opened Arith
  import opened Words

  /** The low `w` bytes of a number, least significant first. */
  function LE(v: nat, w: nat): (s: seq<Byte>)
    ensures |s| == w
    decreases w
  {
    if w == 0 then [] else [v % 256] + LE(v / 256, w - 1)
  }

  function FromLE(s: seq<Byte>): nat {
    if s == [] then 0 else s[0] + 256 * FromLE(s[1..])
  }

  function Pow256(w: nat): (p: nat)
    ensures p >= 1
  {
    if w == 0 then 1 else 256 * Pow256(w - 1)
  }

  /** A number that fits is read back from what was written. */
  lemma {:induction false} ReadWritten(v: nat, w: nat)
    requires v < Pow256(w)
    ensures FromLE(LE(v, w)) == v
    decreases w
  {
    if w > 0 {
      ReadWritten(v / 256, w - 1);
      assert LE(v, w)[1..] == LE(v / 256, w - 1);
    }
  }

  lemma {:induction false} FromLEBound(s: seq<Byte>)
    ensures FromLE(s) < Pow256(|s|)
    decreases |s|
  {
    if s != [] {
      FromLEBound(s[1..]);
    }
  }

  /** Bytes are determined by the number they denote. */
  lemma {:induction false} WrittenRead(s: seq<Byte>)
    ensures LE(FromLE(s), |s|) == s
    decreases |s|
  {
    if s != [] {
      WrittenRead(s[1..]);
      assert FromLE(s) % 256 == s[0] && FromLE(s) / 256 == FromLE(s[1..]);
    }
  }

  lemma Widths()
    ensures Pow256(1) == 0x100 && Pow256(2) == 0x1_0000 && Pow256(4) == WORD && Pow256(8) == WORD * WORD
  {
    assert Pow256(2) == 256 * Pow256(1);
    assert Pow256(4) == 256 * 256 * Pow256(2);
    assert Pow256(6) == 256 * 256 * Pow256(4);
    assert Pow256(8) == 256 * 256 * Pow256(6);
  }

  /** `Read<T>` of `w` bytes at a position inside the buffer. */
  function ReadAt(s: seq<Byte>, pos: nat, w: nat): nat
    requires pos + w <= |s|
  {
    FromLE(s[pos..pos + w])
  }

  /** The bytes `s` stand at position `pos`. */
  predicate Holds(b: seq<Byte>, pos: nat, s: seq<Byte>) {
    pos + |s| <= |b| && b[pos..pos + |s|] == s
  }

  lemma HoldsSplit(b: seq<Byte>, pos: nat, s: seq<Byte>, t: seq<Byte>)
    requires Holds(b, pos, s + t)
    ensures Holds(b, pos, s) && Holds(b, pos + |s|, t)
  {
    assert b[pos..pos + |s|] == (s + t)[..|s|] == s;
    assert b[pos + |s|..pos + |s| + |t|] == (s + t)[|s|..] == t;
  }

  lemma ReadHeld(b: seq<Byte>, pos: nat, v: nat, w: nat)
    requires v < Pow256(w) && Holds(b, pos, LE(v, w))
    ensures ReadAt(b, pos, w) == v
  {
    ReadWritten(v, w);
  }

  /** `s` was written at `ptr`, and nothing else was touched. */
  ghost predicate Wrote(before: seq<Byte>, after: seq<Byte>, ptr: nat, s: seq<Byte>) {
    ptr + |s| <= |before| && after == before[..ptr] + s + before[ptr + |s|..]
  }

  lemma WroteNothing(b: seq<Byte>, ptr: nat)
    requires ptr <= |b|
    ensures Wrote(b, b, ptr, [])
  {
  }

  /** Writing one thing behind another is writing both. */
  lemma WroteBoth(a: seq<Byte>, b: seq<Byte>, c: seq<Byte>, ptr: nat, s: seq<Byte>, t: seq<Byte>)
    requires Wrote(a, b, ptr, s) && Wrote(b, c, ptr + |s|, t)
    ensures Wrote(a, c, ptr, s + t)
  {
    assert b[..ptr + |s|] == a[..ptr] + s;
    assert b[ptr + |s|..] == a[ptr + |s|..];
    assert b[ptr + |s| + |t|..] == b[ptr + |s|..][|t|..] == a[ptr + |s| + |t|..];
  }

  /** What lies behind a write is still there. */
  lemma HoldsBehind(a: seq<Byte>, b: seq<Byte>, ptr: nat, s: seq<Byte>, pos: nat, t: seq<Byte>)
    requires Wrote(a, b, ptr, s) && Holds(a, pos, t) && ptr + |s| <= pos
    ensures Holds(b, pos, t)
  {
    assert b[ptr + |s|..] == a[ptr + |s|..];
    assert b[pos..pos + |t|] == b[ptr + |s|..][pos - ptr - |s|..pos - ptr - |s| + |t|];
    assert a[pos..pos + |t|] == a[ptr + |s|..][pos - ptr - |s|..pos - ptr - |s| + |t|];
  }

  /** Leaving bytes as they are is writing them. */
  lemma HeldIsWritten(b: seq<Byte>, ptr: nat, s: seq<Byte>)
    requires Holds(b, ptr, s)
    ensures Wrote(b, b, ptr, s)
  {
  }

  lemma WroteThenHeld(a: seq<Byte>, b: seq<Byte>, ptr: nat, s: seq<Byte>, t: seq<Byte>)
    requires Wrote(a, b, ptr, s) && Holds(a, ptr + |s|, t)
    ensures Wrote(a, b, ptr, s + t)
  {
    HoldsBehind(a, b, ptr, s, ptr + |s|, t);
    HeldIsWritten(b, ptr + |s|, t);
    WroteBoth(a, b, b, ptr, s, t);
  }

  /** Overwriting the middle part with one of the same length. */
  lemma MiddleReplaced(h: seq<Byte>, s: seq<Byte>, r: seq<Byte>, now: seq<Byte>, t: seq<Byte>)
    requires Wrote(h + s + r, now, |h|, t) && |t| == |s|
    ensures now == h + t + r
  {
    assert (h + s + r)[..|h|] == h && (h + s + r)[|h| + |s|..] == r;
  }

  /** `all` is what is done and what is left to do. */
  ghost predicate Splits(all: seq<Byte>, done: seq<Byte>, rest: seq<Byte>) {
    all == done + rest
  }

  lemma SplitsNext(all: seq<Byte>, done: seq<Byte>, s: seq<Byte>, rest: seq<Byte>)
    requires Splits(all, done, s + rest)
    ensures Splits(all, done + s, rest)
  {
  }

  lemma SplitsGrow(all: seq<Byte>, head: seq<Byte>, done: seq<Byte>, s: seq<Byte>)
    requires Splits(all, head, done)
    ensures Splits(all + s, head, done + s)
  {
  }

  /** A reader that would run past its buffer: the original does not check. */
  datatype Parsed<T> = Ok(value: T, pos: nat) | Overrun

  /** `Write<T>`: stores the low `w` bytes of `v` and returns the advanced
    * pointer. */
  method Write(buf: array<Byte>, ptr: nat, v: nat, w: nat) returns (ptr': nat)
    requires ptr + w <= buf.Length
    modifies buf
    ensures ptr' == ptr + w
    ensures Wrote(old(buf[..]), buf[..], ptr, LE(v, w))
  {
    hide *;
    var rest := v;
    ghost var before := buf[..];
    ghost var done: seq<Byte> := [];
    WroteNothing(before, ptr);
    SplitsStart(LE(v, w));
    for i := 0 to w
      invariant |done| == i && Wrote(before, buf[..], ptr, done) && Splits(LE(v, w), done, LE(rest, w - i))
    {
      ghost var now := buf[..];
      FirstByte(rest, w - i);
      buf[ptr + i] := rest % 256;
      WroteOne(now, ptr + i, rest % 256);
      WroteBoth(before, now, buf[..], ptr, done, [rest % 256]);
      SplitsNext(LE(v, w), done, [rest % 256], LE(rest / 256, w - i - 1));
      done := done + [rest % 256];
      rest := rest / 256;
    }
    ptr' := ptr + w;
    FirstByte(rest, 0);
    SplitsDone(LE(v, w), done);
  }

  lemma FirstByte(v: nat, w: nat)
    ensures LE(v, w) == if w == 0 then [] else [v % 256] + LE(v / 256, w - 1)
  {
  }

  lemma WroteOne(b: seq<Byte>, i: nat, x: Byte)
    requires i < |b|
    ensures Wrote(b, b[i := x], i, [x])
  {
  }

  lemma SplitsStart(all: seq<Byte>)
    ensures Splits(all, [], all)
  {
  }

  lemma SplitsDone(all: seq<Byte>, done: seq<Byte>)
    requires Splits(all, done, [])
    ensures all == done
  {
  }

  /** `memcpy` of a whole byte string. */
  method WriteBytes(buf: array<Byte>, ptr: nat, bytes: seq<Byte>) returns (ptr': nat)
    requires ptr + |bytes| <= buf.Length
    modifies buf
    ensures ptr' == ptr + |bytes|
    ensures Wrote(old(buf[..]), buf[..], ptr, bytes)
  {
    for i := 0 to |bytes|
      invariant forall k :: 0 <= k < ptr || ptr + |bytes| <= k < buf.Length ==> buf[k] == old(buf[k])
      invariant forall k :: 0 <= k < i ==> buf[ptr + k] == bytes[k]
    {
      buf[ptr + i] := bytes[i];
    }
    ptr' := ptr + |bytes|;
    assert buf[..] == old(buf[..])[..ptr] + bytes + old(buf[..])[ptr + |bytes|..];
  }
}
