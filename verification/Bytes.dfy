/** Bytes, big-endian integers and flattening, shared by every other module. */
module Bytes {
  type Byte = x: int | 0 <= x < 256

  /** The number of values of a 16-, 32- and 64-bit field. */
  const TWO16: nat := 0x1_0000
  const TWO32: nat := 0x1_0000_0000
  const TWO64: nat := 0x1_0000_0000_0000_0000

  /** The bytes of an ASCII text. */
  function Ascii(t: string): (s: seq<Byte>)
    requires forall i :: 0 <= i < |t| ==> t[i] < 128 as char
    ensures |s| == |t| && forall i :: 0 <= i < |t| ==> s[i] == t[i] as int
  {
    seq(|t|, i requires 0 <= i < |t| => t[i] as int)
  }

  datatype Option<+T> = None | Some(value: T)

  function Min(a: int, b: int): int {
    if a <= b then a else b
  }

  function Max(a: int, b: int): int {
    if a <= b then b else a
  }

  lemma MinAndMax(a: int, b: int)
    ensures Min(a, b) <= a <= Max(a, b) && Min(a, b) <= b <= Max(a, b)
    ensures {Min(a, b), Max(a, b)} == {a, b}
  {
  }

  /** 256 to the power k: the number of values that fit in k bytes. */
  function Pow256(k: nat): (p: nat)
    ensures p > 0
  {
    if k == 0 then 1 else 256 * Pow256(k - 1)
  }

  /** The low k bytes of n, most significant first. */
  function PutBe(n: nat, k: nat): (s: seq<Byte>)
    ensures |s| == k
  {
    if k == 0 then [] else PutBe(n / 256, k - 1) + [n % 256]
  }

  /** The number a byte string denotes, most significant byte first. */
  function GetBe(s: seq<Byte>): (n: nat)
    ensures n < Pow256(|s|)
  {
    if s == [] then 0 else 256 * GetBe(s[..|s| - 1]) + s[|s| - 1]
  }

  lemma {:induction false} GetPut(n: nat, k: nat)
    requires n < Pow256(k)
    ensures GetBe(PutBe(n, k)) == n
  {
    if k > 0 {
      GetPut(n / 256, k - 1);
      var s := PutBe(n, k);
      assert s[..|s| - 1] == PutBe(n / 256, k - 1);
    }
  }

  /** A byte string is the big-endian form of the number it denotes. */
  lemma {:induction false} PutGet(s: seq<Byte>)
    ensures PutBe(GetBe(s), |s|) == s
  {
    if s != [] {
      PutGet(s[..|s| - 1]);
      assert s == s[..|s| - 1] + [s[|s| - 1]];
    }
  }

  /** The first byte is the most significant one. */
  lemma MostSignificantFirst(a: Byte, b: Byte, c: Byte, d: Byte)
    ensures GetBe([a, b]) == 0x100 * a + b
    ensures GetBe([a, b, c, d]) == 0x100_0000 * a + 0x1_0000 * b + 0x100 * c + d
  {
    assert [a][..0] == [] && [a, b][..1] == [a];
    assert [a, b, c][..2] == [a, b] && [a, b, c, d][..3] == [a, b, c];
  }

  lemma Pow256Values()
    ensures Pow256(2) == TWO16 == 0x1_0000 && Pow256(4) == TWO32 == 0x1_0000_0000
    ensures Pow256(8) == TWO64 == 0x1_0000_0000_0000_0000
  {
    assert Pow256(1) == 256;
    assert Pow256(2) == 256 * 256;
    assert Pow256(3) == 256 * Pow256(2);
    assert Pow256(4) == 256 * Pow256(3);
    assert Pow256(5) == 256 * Pow256(4);
    assert Pow256(6) == 256 * Pow256(5);
    assert Pow256(7) == 256 * Pow256(6);
    assert Pow256(8) == 256 * Pow256(7);
  }

  /** The pieces of a list, laid end to end. */
  function Concat<T>(pieces: seq<seq<T>>): seq<T> {
    if pieces == [] then [] else pieces[0] + Concat(pieces[1..])
  }

  /** One element, n times. */
  function Repeat<T>(x: T, n: nat): (s: seq<T>)
    ensures |s| == n && forall i :: 0 <= i < n ==> s[i] == x
  {
    if n == 0 then [] else Repeat(x, n - 1) + [x]
  }

  /** At most n elements off the front, and what is left. */
  function Head<T>(s: seq<T>, n: nat): seq<T> {
    if n <= |s| then s[..n] else s
  }

  function Tail<T>(s: seq<T>, n: nat): seq<T> {
    if n <= |s| then s[n..] else []
  }

  lemma HeadTail<T>(s: seq<T>, a: nat, b: nat)
    ensures Tail(Tail(s, a), b) == Tail(s, a + b)
    ensures Head(s, a) + Head(Tail(s, a), b) == Head(s, a + b)
  {
  }

  lemma Assoc<T>(a: seq<T>, b: seq<T>, c: seq<T>)
    ensures a + b + c == a + (b + c)
  {
  }

  lemma Regroup<T>(a: seq<T>, b: seq<T>, c: seq<T>, d: seq<T>)
    ensures a + b + c + d == a + (b + c + d)
  {
  }

  /** Adding to a wrapped 64-bit cell wraps the sum. */
  lemma WrapAdds(x: nat, n: nat)
    ensures (x % TWO64 + n) % TWO64 == (x + n) % TWO64
  {
  }
}
