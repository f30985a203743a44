/**
 * UTF-8 byte strings as libxml hands them to Zemel: pointers into byte
 * buffers, either with a known length or terminated by a zero byte, and the
 * C string functions (strlen, memcmp, strncmp, strcmp) the comparisons use.
 * A Swift `String` is modelled as its UTF-8 bytes.
 */
module StringPointers {
  import opened Wrappers

  type Byte = bv8

  /** An address: a buffer and an offset into it. */
  datatype Pointer = Pointer(buffer: seq<Byte>, offset: nat)

  /** The bytes readable from `p` to the end of its buffer. */
  function Tail(p: Pointer): seq<Byte>
  {
    if p.offset <= |p.buffer| then p.buffer[p.offset..] else []
  }

  function Advance(p: Pointer, n: nat): Pointer
  {
    Pointer(p.buffer, p.offset + n)
  }

  lemma TailStep(p: Pointer)
    requires |Tail(p)| > 0
    ensures p.offset < |p.buffer|
    ensures Tail(p) == [p.buffer[p.offset]] + Tail(Advance(p, 1))
  {
  }

  /** A zero byte follows `p` somewhere in its buffer. */
  predicate IsNullTerminated(p: Pointer)
    decreases |p.buffer| - p.offset
  {
    p.offset < |p.buffer| && (p.buffer[p.offset] == 0 || IsNullTerminated(Advance(p, 1)))
  }

  /** The characters of a C string, up to and without its terminator. */
  function CString(p: Pointer): seq<Byte>
    requires IsNullTerminated(p)
    decreases |p.buffer| - p.offset
  {
    if p.buffer[p.offset] == 0 then [] else [p.buffer[p.offset]] + CString(Advance(p, 1))
  }

  /** A C string is the bytes before the first zero byte of its buffer. */
  lemma {:induction false} CStringLayout(p: Pointer)
    requires IsNullTerminated(p)
    ensures 0 !in CString(p)
    ensures |CString(p)| < |Tail(p)| && Tail(p)[..|CString(p)|] == CString(p) && Tail(p)[|CString(p)|] == 0
    decreases |p.buffer| - p.offset
  {
    TailStep(p);
    if p.buffer[p.offset] != 0 {
      CStringLayout(Advance(p, 1));
    }
  }

  /** C `strlen`: the index of the first zero byte. */
  function Strlen(p: Pointer): (n: nat)
    requires IsNullTerminated(p)
    ensures n < |Tail(p)| && Tail(p)[n] == 0 && 0 !in Tail(p)[..n]
  {
    CStringLayout(p);
    |CString(p)|
  }

  /** C `memcmp(a, b, n) == 0`, byte by byte. */
  function Memcmp(a: Pointer, b: Pointer, n: nat): bool
    requires n <= |Tail(a)| && n <= |Tail(b)|
    decreases n
  {
    if n == 0 then true
    else
      TailStep(a); TailStep(b);
      a.buffer[a.offset] == b.buffer[b.offset] && Memcmp(Advance(a, 1), Advance(b, 1), n - 1)
  }

  lemma {:induction false} MemcmpMeansEqualPrefixes(a: Pointer, b: Pointer, n: nat)
    requires n <= |Tail(a)| && n <= |Tail(b)|
    ensures Memcmp(a, b, n) <==> Tail(a)[..n] == Tail(b)[..n]
    decreases n
  {
    if n > 0 {
      PrefixStep(a, n);
      PrefixStep(b, n);
      MemcmpMeansEqualPrefixes(Advance(a, 1), Advance(b, 1), n - 1);
      ConsEquality(a.buffer[a.offset], Tail(Advance(a, 1))[..n - 1], b.buffer[b.offset], Tail(Advance(b, 1))[..n - 1]);
    }
  }

  /** The first `n` bytes from `p` are its first byte and then the first `n - 1` bytes after it. */
  lemma PrefixStep(p: Pointer, n: nat)
    requires 0 < n <= |Tail(p)|
    ensures p.offset < |p.buffer| && n - 1 <= |Tail(Advance(p, 1))|
    ensures Tail(p)[..n] == [p.buffer[p.offset]] + Tail(Advance(p, 1))[..n - 1]
  {
    TailStep(p);
  }

  /** Two sequences with a first element are equal exactly when their heads and their tails are. */
  lemma ConsEquality(x: Byte, xs: seq<Byte>, y: Byte, ys: seq<Byte>)
    ensures [x] + xs == [y] + ys <==> x == y && xs == ys
  {
    if [x] + xs == [y] + ys {
      assert ([x] + xs)[0] == x && ([y] + ys)[0] == y;
      assert ([x] + xs)[1..] == xs && ([y] + ys)[1..] == ys;
    }
  }

  /**
   * C `strncmp(a, b, n) == 0`: compares at most `n` bytes and stops after a
   * zero byte both strings share. `b` is null-terminated, so every byte it
   * reads lies before or at that terminator.
   */
  function Strncmp(a: Pointer, b: Pointer, n: nat): bool
    requires n <= |Tail(a)| && IsNullTerminated(b)
    decreases n
  {
    if n == 0 then true
    else
      TailStep(a);
      a.buffer[a.offset] == b.buffer[b.offset] &&
      (a.buffer[a.offset] == 0 || Strncmp(Advance(a, 1), Advance(b, 1), n - 1))
  }

  lemma {:induction false} StrncmpWithoutZero(a: Pointer, b: Pointer, n: nat)
    requires n <= |Tail(a)| && 0 !in Tail(a)[..n] && IsNullTerminated(b)
    ensures Strncmp(a, b, n) <==> n <= |CString(b)| && CString(b)[..n] == Tail(a)[..n]
    decreases n
  {
    if n > 0 {
      PrefixStep(a, n);
      var a0, b0 := a.buffer[a.offset], b.buffer[b.offset];
      assert a0 != 0 by { assert Tail(a)[..n][0] == a0; }
      var restA := Tail(Advance(a, 1))[..n - 1];
      assert 0 !in restA by { assert forall x :: x in restA ==> x in Tail(a)[..n]; }
      if a0 == b0 {
        StrncmpWithoutZero(Advance(a, 1), Advance(b, 1), n - 1);
        var rest := CString(Advance(b, 1));
        assert CString(b) == [b0] + rest;
        if n - 1 <= |rest| {
          assert CString(b)[..n] == [b0] + rest[..n - 1];
          ConsEquality(b0, rest[..n - 1], a0, restA);
        }
      } else if n <= |CString(b)| {
        assert CString(b)[..n][0] == b0;
      }
    }
  }

  /** C `strcmp(a, b) == 0`. */
  function Strcmp(a: Pointer, b: Pointer): bool
    requires IsNullTerminated(a) && IsNullTerminated(b)
    decreases |a.buffer| - a.offset
  {
    a.buffer[a.offset] == b.buffer[b.offset] &&
    (a.buffer[a.offset] == 0 || Strcmp(Advance(a, 1), Advance(b, 1)))
  }

  lemma {:induction false} StrcmpMeansEqualStrings(a: Pointer, b: Pointer)
    requires IsNullTerminated(a) && IsNullTerminated(b)
    ensures Strcmp(a, b) <==> CString(a) == CString(b)
    decreases |a.buffer| - a.offset
  {
    var a0, b0 := a.buffer[a.offset], b.buffer[b.offset];
    if a0 == b0 && a0 != 0 {
      StrcmpMeansEqualStrings(Advance(a, 1), Advance(b, 1));
      var ra, rb := CString(Advance(a, 1)), CString(Advance(b, 1));
      assert CString(a) == [a0] + ra && CString(b) == [b0] + rb;
      if CString(a) == CString(b) {
        assert ra == CString(a)[1..] && rb == CString(b)[1..];
      }
    } else if a0 != 0 && b0 != 0 {
      assert CString(a)[0] != CString(b)[0];
    }
  }

  /** A string with a known length (UnsafeStringPointer). */
  datatype UnsafeStringPointer = UnsafeStringPointer(raw: Pointer, length: nat)

  /** The pointed-to buffer holds at least `length` bytes. */
  predicate Readable(s: UnsafeStringPointer)
  {
    s.length <= |Tail(s.raw)|
  }

  function Bytes(s: UnsafeStringPointer): seq<Byte>
    requires Readable(s)
  {
    Tail(s.raw)[..s.length]
  }

  /** A string whose end is its first zero byte (UnsafeNullTerminatedStringPointer). */
  datatype UnsafeNullTerminatedStringPointer = NullTerminated(raw: Pointer)

  /** The optional initializer: a null pointer gives no string. */
  function OptionalNullTerminated(raw: Option<Pointer>): (r: Option<UnsafeNullTerminatedStringPointer>)
    ensures r.None? <==> raw.None?
    ensures r.Some? ==> r.value.raw == raw.value
  {
    if raw.None? then None else Some(NullTerminated(raw.value))
  }

  /** `init(nullTerminated:)`: the length is measured with strlen. */
  function FromNullTerminated(raw: Pointer): (r: UnsafeStringPointer)
    requires IsNullTerminated(raw)
    ensures Readable(r) && Bytes(r) == CString(raw) && 0 !in Bytes(r)
  {
    CStringLayout(raw);
    UnsafeStringPointer(raw, Strlen(raw))
  }

  /** `init?(nullTerminated:)`. */
  function OptionalFromNullTerminated(raw: Option<Pointer>): (r: Option<UnsafeStringPointer>)
    requires raw.Some? ==> IsNullTerminated(raw.value)
    ensures r.None? <==> raw.None?
    ensures r.Some? ==> Readable(r.value) && Bytes(r.value) == CString(raw.value)
  {
    if raw.None? then None else Some(FromNullTerminated(raw.value))
  }

  /** `with(string:)`: a Swift string seen through a C string of its UTF-8 bytes. */
  function WithString(s: seq<Byte>): (r: UnsafeStringPointer)
    ensures Readable(r) && Bytes(r) == s && r.length == |s|
  {
    assert Tail(Pointer(s + [0], 0))[..|s|] == s;
    UnsafeStringPointer(Pointer(s + [0], 0), |s|)
  }

  /** `equals(_: String)`: same length, then memcmp over it. */
  function EqualsString(s: UnsafeStringPointer, other: seq<Byte>): (r: bool)
    requires Readable(s)
    ensures r <==> Bytes(s) == other
  {
    var o := WithString(other);
    if |other| != s.length then false
    else
      MemcmpMeansEqualPrefixes(s.raw, o.raw, s.length);
      Memcmp(s.raw, o.raw, s.length)
  }

  /** `equals(_: UnsafeStringPointer)`: same length, then memcmp over it. */
  function EqualsPointer(s: UnsafeStringPointer, other: UnsafeStringPointer): (r: bool)
    requires Readable(s) && Readable(other)
    ensures r <==> Bytes(s) == Bytes(other)
  {
    if other.length != s.length then false
    else
      MemcmpMeansEqualPrefixes(s.raw, other.raw, s.length);
      Memcmp(s.raw, other.raw, s.length)
  }

  /**
   * `equals(_: UnsafeNullTerminatedStringPointer)`: strncmp over the known
   * length, then the byte just past it must be the other string's terminator.
   * Sound only for a string without zero bytes, as the source assumes.
   */
  function EqualsNullTerminated(s: UnsafeStringPointer, other: UnsafeNullTerminatedStringPointer): (r: bool)
    requires Readable(s) && 0 !in Bytes(s) && IsNullTerminated(other.raw)
    ensures r <==> Bytes(s) == CString(other.raw)
  {
    StrncmpWithoutZero(s.raw, other.raw, s.length);
    CStringLayout(other.raw);
    if Strncmp(s.raw, other.raw, s.length) then
      Tail(other.raw)[s.length] == 0
    else
      false
  }

  /** `copy()`: the bytes moved into a fresh buffer. */
  function Copy(s: UnsafeStringPointer): (r: UnsafeStringPointer)
    requires Readable(s)
    ensures Readable(r) && r.length == s.length && Bytes(r) == Bytes(s)
    ensures r.raw.offset == 0 && |r.raw.buffer| == s.length
  {
    UnsafeStringPointer(Pointer(Bytes(s), 0), s.length)
  }

  /** Appending a terminator to bytes without zeros gives a C string of those bytes. */
  lemma TerminatedCString(s: seq<Byte>)
    ensures IsNullTerminated(Pointer(s + [0], 0))
    ensures 0 !in s ==> CString(Pointer(s + [0], 0)) == s
  {
    TerminatedFrom(s, 0);
  }

  lemma {:induction false} TerminatedFrom(s: seq<Byte>, i: nat)
    requires i <= |s|
    ensures IsNullTerminated(Pointer(s + [0], i))
    ensures 0 !in s ==> CString(Pointer(s + [0], i)) == s[i..]
    decreases |s| - i
  {
    var p := Pointer(s + [0], i);
    if i < |s| && s[i] != 0 {
      TerminatedFrom(s, i + 1);
      assert Advance(p, 1) == Pointer(s + [0], i + 1);
      if 0 !in s {
        assert s[i..] == [s[i]] + s[i + 1..];
      }
    } else if i < |s| {
      assert s[i] in s;
    }
  }

  /** `equals(_: String)` of a C string: strcmp against the string's C form. */
  function NullTerminatedEqualsString(t: UnsafeNullTerminatedStringPointer, other: seq<Byte>): (r: bool)
    requires IsNullTerminated(t.raw)
    ensures 0 !in other ==> (r <==> CString(t.raw) == other)
  {
    var o := Pointer(other + [0], 0);
    TerminatedCString(other);
    StrcmpMeansEqualStrings(o, t.raw);
    Strcmp(o, t.raw)
  }

  /** `equals(_: UnsafeStringPointer)` of a C string: delegates to the other side. */
  function NullTerminatedEqualsPointer(t: UnsafeNullTerminatedStringPointer, other: UnsafeStringPointer): (r: bool)
    requires IsNullTerminated(t.raw) && Readable(other) && 0 !in Bytes(other)
    ensures r <==> CString(t.raw) == Bytes(other)
  {
    EqualsNullTerminated(other, t)
  }

  /** `equals(_: UnsafeNullTerminatedStringPointer)`: strcmp. */
  function NullTerminatedEquals(t: UnsafeNullTerminatedStringPointer, other: UnsafeNullTerminatedStringPointer): (r: bool)
    requires IsNullTerminated(t.raw) && IsNullTerminated(other.raw)
    ensures r <==> CString(t.raw) == CString(other.raw)
  {
    StrcmpMeansEqualStrings(other.raw, t.raw);
    Strcmp(other.raw, t.raw)
  }

  /** `copy()` of a C string: strdup, the characters and a terminator in a fresh buffer. */
  function NullTerminatedCopy(t: UnsafeNullTerminatedStringPointer): (r: UnsafeNullTerminatedStringPointer)
    requires IsNullTerminated(t.raw)
    ensures IsNullTerminated(r.raw) && CString(r.raw) == CString(t.raw)
    ensures r.raw.offset == 0
  {
    CStringLayout(t.raw);
    TerminatedCString(CString(t.raw));
    NullTerminated(Pointer(CString(t.raw) + [0], 0))
  }

  /** `calculateLengthAndCopy()`: strlen, then the characters into a fresh buffer. */
  function CalculateLengthAndCopy(t: UnsafeNullTerminatedStringPointer): (r: UnsafeStringPointer)
    requires IsNullTerminated(t.raw)
    ensures Readable(r) && r.length == Strlen(t.raw) && Bytes(r) == CString(t.raw)
    ensures 0 !in Bytes(r)
  {
    Copy(FromNullTerminated(t.raw))
  }
}
