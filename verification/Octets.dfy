/** Numbers as sequences of octets, in both orders. */
module Octets {
  import opened Prelude

  function Zeros(n: nat): (r: seq<byte>)
    ensures |r| == n && forall i | 0 <= i < n :: r[i] == 0
  {
    seq(n, _ => 0)
  }

  // ----- Big-endian numbers

  function Pow256(n: nat): (r: nat)
    ensures r > 0
  {
    if n == 0 then 1 else 0x100 * Pow256(n - 1)
  }

  /** The last `n` octets of a number, the most significant first. */
  function Be(x: nat, n: nat): (r: seq<byte>)
    ensures |r| == n
  {
    if n == 0 then [] else Be(x / 0x100, n - 1) + [x % 0x100]
  }

  /** The number shifted right by `n` octets. */
  function ShiftRight(x: nat, n: nat): nat {
    if n == 0 then x else ShiftRight(x / 0x100, n - 1)
  }

  lemma {:induction false} ShiftedOut(x: nat, n: nat)
    ensures ShiftRight(x, n) == 0 <==> x < Pow256(n)
  {
    if n > 0 {
      ShiftedOut(x / 0x100, n - 1);
    }
  }

  lemma {:induction false} BeAt(x: nat, n: nat, i: nat)
    requires i < n
    ensures Be(x, n)[i] == ShiftRight(x, n - i - 1) % 0x100
  {
    if i < n - 1 {
      BeAt(x / 0x100, n - 1, i);
    }
  }

  lemma {:induction false} BeOfSmall(x: nat, k: nat, w: nat)
    requires x < Pow256(k) && k <= w
    ensures Be(x, w) == Zeros(w - k) + Be(x, k)
  {
    if k > 0 {
      BeOfSmall(x / 0x100, k - 1, w - 1);
    } else if w > 0 {
      BeOfSmall(0, 0, w - 1);
    }
  }

  function FromBe(s: seq<byte>): nat {
    if s == [] then 0 else FromBe(s[..|s| - 1]) * 0x100 + s[|s| - 1]
  }

  lemma {:induction false} FromBeOfBe(x: nat, n: nat)
    requires x < Pow256(n)
    ensures FromBe(Be(x, n)) == x
  {
    if n > 0 {
      var q := x / 0x100;
      assert q < Pow256(n - 1);
      FromBeOfBe(q, n - 1);
      assert Be(x, n)[..n - 1] == Be(q, n - 1);
    }
  }

  lemma {:induction false} BeOfFromBe(s: seq<byte>)
    ensures FromBe(s) < Pow256(|s|) && Be(FromBe(s), |s|) == s
  {
    if s != [] {
      BeOfFromBe(s[..|s| - 1]);
      assert s == s[..|s| - 1] + [s[|s| - 1]];
    }
  }

  /** Different short numbers have different octets. */
  lemma BeInjective(x: nat, y: nat, n: nat)
    requires x < Pow256(n) && y < Pow256(n) && Be(x, n) == Be(y, n)
    ensures x == y
  {
    FromBeOfBe(x, n);
    FromBeOfBe(y, n);
  }

  // ----- Little-endian numbers

  /** The lowest `n` octets of a number, the least significant first. */
  function Le(x: nat, n: nat): (r: seq<byte>)
    ensures |r| == n
  {
    if n == 0 then [] else [x % 0x100] + Le(x / 0x100, n - 1)
  }

  function FromLe(s: seq<byte>): nat {
    if s == [] then 0 else s[0] + 0x100 * FromLe(s[1..])
  }

  lemma {:induction false} FromLeOfLe(x: nat, n: nat)
    requires x < Pow256(n)
    ensures FromLe(Le(x, n)) == x
  {
    if n > 0 {
      FromLeOfLe(x / 0x100, n - 1);
      assert Le(x, n)[1..] == Le(x / 0x100, n - 1);
    }
  }

  lemma {:induction false} LeOfFromLe(s: seq<byte>)
    ensures FromLe(s) < Pow256(|s|) && Le(FromLe(s), |s|) == s
  {
    if s != [] {
      LeOfFromLe(s[1..]);
      assert FromLe(s) % 0x100 == s[0] && FromLe(s) / 0x100 == FromLe(s[1..]);
      assert s == [s[0]] + s[1..];
    }
  }

  lemma LeInjective(x: nat, y: nat, n: nat)
    requires x < Pow256(n) && y < Pow256(n) && Le(x, n) == Le(y, n)
    ensures x == y
  {
    FromLeOfLe(x, n);
    FromLeOfLe(y, n);
  }

  /** The little-endian number at the start of some data, and what follows it. */
  function TakeLe(n: nat, data: seq<byte>): (r: Option<(nat, seq<byte>)>)
    ensures r.Some? <==> n <= |data|
    ensures r.Some? ==> r.value.0 < Pow256(n) && Le(r.value.0, n) + r.value.1 == data
  {
    if |data| < n then None
    else
      LeOfFromLe(data[..n]);
      Some((FromLe(data[..n]), data[n..]))
  }

  lemma TakesLe(x: nat, n: nat, rest: seq<byte>)
    requires x < Pow256(n)
    ensures TakeLe(n, Le(x, n) + rest) == Some((x, rest))
  {
    FromLeOfLe(x, n);
    assert (Le(x, n) + rest)[..n] == Le(x, n);
  }

  lemma PowersOf256()
    ensures Pow256(1) == 0x100 && Pow256(2) == 0x1_0000 && Pow256(4) == 0x1_0000_0000
    ensures Pow256(8) == 0x1_0000_0000_0000_0000
  {
  }

  method ToArray(s: seq<byte>) returns (a: array<byte>)
    ensures fresh(a) && a[..] == s
  {
    a := new byte[|s|](i requires 0 <= i < |s| => s[i]);
  }
}
