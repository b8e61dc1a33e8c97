/** In-memory names of sessions (internal/agent/classifydiff.go): mask name, NUL, hex of the match key. */
module MapKey {
  import opened Model

  const HEX: string := "0123456789abcdef"

  function Hex(bytes: seq<Byte>): (s: string)
    ensures |s| == 2 * |bytes|
  {
    if bytes == [] then [] else
      var b: int := bytes[0];
      [HEX[b / 16], HEX[b % 16]] + Hex(bytes[1..])
  }

  lemma HexDigitsDiffer(i: nat, j: nat)
    requires i < 16 && j < 16 && HEX[i] == HEX[j]
    ensures i == j
  {
  }

  lemma {:induction false} HexInjective(a: seq<Byte>, b: seq<Byte>)
    requires Hex(a) == Hex(b)
    ensures a == b
  {
    if a == [] {
    } else {
      assert |a| == |b|;
      var x: int, y: int := a[0], b[0];
      assert Hex(a)[0] == Hex(b)[0] && Hex(a)[1] == Hex(b)[1];
      HexDigitsDiffer(x / 16, y / 16);
      HexDigitsDiffer(x % 16, y % 16);
      assert Hex(a)[2..] == Hex(a[1..]) && Hex(b)[2..] == Hex(b[1..]);
      HexInjective(a[1..], b[1..]);
      assert a == [a[0]] + a[1..] && b == [b[0]] + b[1..];
    }
  }

  function SessionMapKey(mask: string, keyHex: string): (s: string) { mask + ['\0'] + keyHex }

  /** The first NUL ends the mask name. */
  lemma NameEnds(a: string, x: string, b: string, y: string)
    requires '\0' !in a && '\0' !in b && SessionMapKey(a, x) == SessionMapKey(b, y)
    ensures a == b && x == y
  {
    var s, t := SessionMapKey(a, x), SessionMapKey(b, y);
    assert s[|a|] == '\0' && t[|b|] == '\0';
    assert forall i | 0 <= i < |a| :: s[i] == a[i] && a[i] in a;
    assert forall i | 0 <= i < |b| :: t[i] == b[i] && b[i] in b;
    assert |a| == |b|;
    assert s[..|a|] == a && t[..|b|] == b && s[|a| + 1..] == x && t[|b| + 1..] == y;
  }

  /** A map key stands for one mask and one match key: with distinct, NUL-free mask names, two sessions share
      their map key exactly when they share both. Equal match keys under different masks stay apart. */
  lemma MapKeyIffSameSession(name: MaskKind -> string, m: MaskKind, k: seq<Byte>, n: MaskKind, j: seq<Byte>)
    requires '\0' !in name(m) && '\0' !in name(n) && (name(m) == name(n) ==> m == n)
    ensures SessionMapKey(name(m), Hex(k)) == SessionMapKey(name(n), Hex(j)) <==> m == n && k == j
  {
    hide Hex, SessionMapKey;
    if SessionMapKey(name(m), Hex(k)) == SessionMapKey(name(n), Hex(j)) {
      NameEnds(name(m), Hex(k), name(n), Hex(j));
      HexInjective(k, j);
    }
  }
}
