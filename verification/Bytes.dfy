/** Bytes, little-endian integers and the C string routines the messages are built with. */
module Bytes {

  type byte = x: int | 0 <= x < 256

  /** A C `int`. */
  type int32 = x: int | -0x8000_0000 <= x < 0x8000_0000

  /** An `int64_t`, and the `long` of a 64-bit build. */
  type int64 = x: int | -0x8000_0000_0000_0000 <= x < 0x8000_0000_0000_0000

  function Zeros(n: nat): (r: seq<byte>)
    ensures |r| == n
  {
    seq(n, i => 0)
  }

  // ---------- little-endian integers ----------

  function Power(k: nat): (r: nat)
    ensures r > 0
  {
    if k == 0 then 1 else 256 * Power(k - 1)
  }

  lemma Powers()
    ensures Power(4) == 0x1_0000_0000 && Power(8) == 0x1_0000_0000_0000_0000
  {
    assert Power(3) == 0x100_0000;
    assert Power(6) == 256 * Power(5) == 0x1_0000_0000_0000;
  }

  /** The `k` low-order bytes of `n`, least significant first. */
  function Little(n: nat, k: nat): (r: seq<byte>)
    ensures |r| == k
  {
    if k == 0 then [] else [n % 256] + Little(n / 256, k - 1)
  }

  function Big(s: seq<byte>): (r: nat)
  {
    if s == [] then 0 else s[0] + 256 * Big(s[1..])
  }

  lemma {:induction false} LittleRoundTrip(n: nat, k: nat)
    requires n < Power(k)
    ensures Big(Little(n, k)) == n
  {
    if k > 0 {
      LittleRoundTrip(n / 256, k - 1);
      assert Little(n, k)[1..] == Little(n / 256, k - 1);
    }
  }

  lemma {:induction false} BigBound(s: seq<byte>)
    ensures Big(s) < Power(|s|)
  {
    if s != [] {
      BigBound(s[1..]);
    }
  }

  /** And back: the order of the bytes is the order of the digits, the lowest first. */
  lemma {:induction false} DigitsRoundTrip(s: seq<byte>)
    ensures Little(Big(s), |s|) == s
  {
    if s != [] {
      DigitsRoundTrip(s[1..]);
      assert Big(s) % 256 == s[0] && Big(s) / 256 == Big(s[1..]);
    }
  }

  /** Two's complement, as `memcpy` of an `int` shows it on a little-endian machine. */
  function Int32Bytes(v: int32): (r: seq<byte>)
    ensures |r| == 4
  {
    Little(if v < 0 then v + 0x1_0000_0000 else v, 4)
  }

  function Int32(s: seq<byte>): (r: int32)
    requires |s| == 4
  {
    Powers();
    BigBound(s);
    var n := Big(s);
    if n >= 0x8000_0000 then n - 0x1_0000_0000 else n
  }

  function Int64Bytes(v: int64): (r: seq<byte>)
    ensures |r| == 8
  {
    Little(if v < 0 then v + 0x1_0000_0000_0000_0000 else v, 8)
  }

  function Int64(s: seq<byte>): (r: int64)
    requires |s| == 8
  {
    Powers();
    BigBound(s);
    var n := Big(s);
    if n >= 0x8000_0000_0000_0000 then n - 0x1_0000_0000_0000_0000 else n
  }

  lemma Int32RoundTrip(v: int32)
    ensures Int32(Int32Bytes(v)) == v
  {
    Powers();
    LittleRoundTrip(if v < 0 then v + 0x1_0000_0000 else v, 4);
  }

  lemma Int64RoundTrip(v: int64)
    ensures Int64(Int64Bytes(v)) == v
  {
    Powers();
    LittleRoundTrip(if v < 0 then v + 0x1_0000_0000_0000_0000 else v, 8);
  }

  lemma Int32BytesRoundTrip(s: seq<byte>)
    requires |s| == 4
    ensures Int32Bytes(Int32(s)) == s
  {
    Powers();
    BigBound(s);
    DigitsRoundTrip(s);
  }

  lemma Int64BytesRoundTrip(s: seq<byte>)
    requires |s| == 8
    ensures Int64Bytes(Int64(s)) == s
  {
    Powers();
    BigBound(s);
    DigitsRoundTrip(s);
  }

  // ---------- C strings ----------

  function Take(s: seq<byte>, n: nat): (r: seq<byte>)
    ensures |r| <= n && r <= s
  {
    if |s| <= n then s else s[..n]
  }

  predicate NulFree(s: seq<byte>)
  {
    0 !in s
  }

  /** The bytes in front of the first NUL: what `strlen` and `strncpy` see of a character array. */
  function CString(s: seq<byte>): (r: seq<byte>)
    ensures NulFree(r) && r <= s
    ensures |r| < |s| ==> s[|r|] == 0
  {
    if s == [] || s[0] == 0 then [] else
      var r := CString(s[1..]);
      assert [s[0]] + s[1..] == s;
      [s[0]] + r
  }

  /** A zeroed character array of `n` bytes after `strncpy( array, s, n )`. */
  function Field(s: seq<byte>, n: nat): (r: seq<byte>)
    ensures |r| == n
  {
    Take(s, n) + Zeros(n - |Take(s, n)|)
  }

  lemma {:induction false} CStringOfPadded(s: seq<byte>, t: seq<byte>)
    requires NulFree(s)
    requires t == [] || t[0] == 0
    ensures CString(s + t) == s
  {
    if s == [] {
      assert s + t == t;
    } else {
      assert (s + t)[1..] == s[1..] + t;
      CStringOfPadded(s[1..], t);
    }
  }

  /** Copying a string into a field and reading it back only ever truncates it. */
  lemma FieldKeepsString(s: seq<byte>, n: nat)
    requires NulFree(s)
    ensures CString(Field(s, n)) == Take(s, n)
  {
    CStringOfPadded(Take(s, n), Zeros(n - |Take(s, n)|));
  }

  const SLASH: byte := 47

  /** GNU `basename`: the part behind the last slash. */
  function BaseName(path: seq<byte>): (r: seq<byte>)
    ensures SLASH !in r
    ensures exists k :: 0 <= k <= |path| && r == path[k..] && (k == 0 || path[k - 1] == SLASH)
    ensures NulFree(path) ==> NulFree(r)
  {
    if path == [] then assert path[0..] == []; []
    else if path[|path| - 1] == SLASH then
      assert path[|path|..] == [];
      []
    else
      var front := path[..|path| - 1];
      var r := BaseName(front);
      var k :| 0 <= k <= |front| && r == front[k..] && (k == 0 || front[k - 1] == SLASH);
      assert path[k..] == r + [path[|path| - 1]];
      r + [path[|path| - 1]]
  }
}
