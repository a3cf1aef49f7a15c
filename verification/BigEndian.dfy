/** Byte strings read as big-endian numbers. */
module BigEndian {
  import opened Bytes

  function Pow256(n: nat): (r: nat)
    ensures r > 0
  {
    if n == 0 then 1 else 256 * Pow256(n - 1)
  }

  function Value(s: seq<byte>): (v: nat)
    ensures v < Pow256(|s|)
    decreases |s|
  {
    if s == [] then 0 else Value(s[..|s| - 1]) * 256 + s[|s| - 1]
  }

  /** The low n bytes of v. */
  function Digits(v: nat, n: nat): (s: seq<byte>)
    ensures |s| == n
    decreases n
  {
    if n == 0 then [] else Digits(v / 256, n - 1) + [v % 256]
  }

  lemma {:induction false} ValueOfDigits(v: nat, n: nat)
    ensures Value(Digits(v, n)) == v % Pow256(n)
    decreases n
  {
    if n == 0 {
    } else {
      var d := Digits(v, n);
      assert d[..n - 1] == Digits(v / 256, n - 1);
      ValueOfDigits(v / 256, n - 1);
      ModSplit(v, Pow256(n - 1));
    }
  }

  lemma ModSplit(v: nat, p: nat)
    requires p > 0
    ensures v % (256 * p) == (v / 256) % p * 256 + v % 256
  {
    var q, r := v / 256, v % 256;
    var k, m := q / p, q % p;
    assert v == (256 * p) * k + (m * 256 + r) by {
      assert q == p * k + m;
      assert (256 * p) * k == 256 * (p * k);
    }
    ModUnique(v, 256 * p, k, m * 256 + r);
  }

  lemma ModUnique(v: nat, d: nat, k: nat, r: nat)
    requires d > 0 && r < d && v == d * k + r
    ensures v % d == r && v / d == k
  {
    var k', r' := v / d, v % d;
    assert v == d * k' + r';
    if k > k' {
      ProductAtLeast(d, k, k');
    } else if k < k' {
      ProductAtLeast(d, k', k);
    }
  }

  lemma ProductAtLeast(d: nat, x: nat, y: nat)
    requires x > y
    ensures d * x >= d * y + d
  {
    assert d * x == d * y + d * (x - y);
    assert d * (x - y) == d + d * (x - y - 1);
  }

  lemma {:induction false} ValueConcat(a: seq<byte>, b: seq<byte>)
    ensures Value(a + b) == Value(a) * Pow256(|b|) + Value(b)
    decreases |b|
  {
    if b == [] {
      assert a + b == a;
    } else {
      var n := |b| - 1;
      assert (a + b)[..|a| + n] == a + b[..n];
      ValueConcat(a, b[..n]);
      assert Value(a) * Pow256(n) * 256 == Value(a) * Pow256(n + 1) by {
        assert Pow256(n + 1) == Pow256(n) * 256;
        MulAssoc(Value(a), Pow256(n), 256);
      }
    }
  }

  lemma MulAssoc(x: nat, y: nat, z: nat)
    ensures x * y * z == x * (y * z)
  {
  }

  // ----- adding one with a carry -----

  /** The next byte string of the same length; all 255 goes round to all 0. */
  function Succ(s: seq<byte>): (t: seq<byte>)
    ensures |t| == |s|
    decreases |s|
  {
    if s == [] then []
    else
      var n := |s| - 1;
      if s[n] < 255 then s[..n] + [s[n] + 1] else Succ(s[..n]) + [0]
  }

  /** Adding one with a carry, wrapping at 256 to the power of the length. */
  lemma {:induction false} SuccWraps(s: seq<byte>)
    ensures Value(Succ(s)) == if Value(s) + 1 == Pow256(|s|) then 0 else Value(s) + 1
    decreases |s|
  {
    if s == [] {
    } else {
      var n, t := |s| - 1, Succ(s);
      if s[n] < 255 {
        assert t[..n] == s[..n];
      } else {
        assert t[..n] == Succ(s[..n]);
        SuccWraps(s[..n]);
      }
    }
  }

  /** t is s with its last k bytes, all 255, turned to 0. */
  ghost predicate Carried(s: seq<byte>, t: seq<byte>, k: nat) {
    && |t| == |s| && k <= |s|
    && (forall j :: 0 <= j < |s| - k ==> t[j] == s[j])
    && (forall j :: |s| - k <= j < |s| ==> s[j] == 255 && t[j] == 0)
  }

  lemma SuccCarries(s: seq<byte>)
    requires s != [] && s[|s| - 1] == 255
    ensures Succ(s) == Succ(s[..|s| - 1]) + [0]
  {
  }

  lemma CarriedInit(s: seq<byte>, t: seq<byte>, k: nat)
    requires Carried(s, t, k) && k > 0
    ensures var n := |s| - 1; s[n] == 255 && t[n] == 0 && Carried(s[..n], t[..n], k - 1)
  {
  }

  /** What is left to do after k bytes have carried. */
  lemma {:induction false} CarryLeaves(s: seq<byte>, t: seq<byte>, k: nat)
    requires Carried(s, t, k)
    ensures Succ(s) == Succ(s[..|s| - k]) + t[|s| - k..]
    decreases k
  {
    assert |t| == |s| && k <= |s|;
    hide Succ, Carried;
    if k == 0 {
      assert s[..|s|] == s;
    } else {
      var n := |s| - 1;
      CarriedInit(s, t, k);
      CarryLeaves(s[..n], t[..n], k - 1);
      SuccCarries(s);
      assert s[..n][..n - (k - 1)] == s[..|s| - k];
      DropInit(t, n - (k - 1));
    }
  }

  lemma DropInit(t: seq<byte>, o: nat)
    requires o < |t|
    ensures t[..|t| - 1][o..] + [t[|t| - 1]] == t[o..]
  {
  }

  /** The carry went through every byte. */
  lemma CarryWrapped(s: seq<byte>, t: seq<byte>)
    requires Carried(s, t, |s|)
    ensures t == Succ(s)
  {
    CarryLeaves(s, t, |s|);
    assert s[..0] == [] && t[0..] == t;
  }

  /** The carry stopped: byte j was raised without overflow. */
  lemma CarryStopped(s: seq<byte>, t: seq<byte>, j: nat)
    requires j < |s| && Carried(s, t, |s| - 1 - j) && s[j] < 255
    ensures t[j := s[j] + 1] == Succ(s)
  {
    hide Succ;
    CarryLeaves(s, t, |s| - 1 - j);
    assert s[..j] == t[..j];
    hide Carried;
    RaiseLast(s[..j], s[j]);
    assert s[..j + 1] == s[..j] + [s[j]];
    ReplaceAt(t, j, s[j] + 1);
  }

  lemma ReplaceAt(t: seq<byte>, j: nat, b: byte)
    requires j < |t|
    ensures t[j := b] == t[..j] + [b] + t[j + 1..]
  {
  }

  lemma RaiseLast(front: seq<byte>, b: byte)
    requires b < 255
    ensures Succ(front + [b]) == front + [b + 1]
  {
    assert (front + [b])[..|front|] == front;
  }

  lemma NextQuotient(v: nat)
    ensures if v % 256 == 255 then (v + 1) / 256 == v / 256 + 1 && (v + 1) % 256 == 0
            else (v + 1) / 256 == v / 256 && (v + 1) % 256 == v % 256 + 1
  {
  }

  /** Stepping the digits of v is adding one to v, wrap-around included. */
  lemma {:induction false} SuccOfDigits(v: nat, n: nat)
    ensures Succ(Digits(v, n)) == Digits(v + 1, n)
    decreases n
  {
    if n == 0 {
    } else {
      var d := Digits(v, n);
      assert d[..n - 1] == Digits(v / 256, n - 1) && d[n - 1] == v % 256;
      NextQuotient(v);
      SuccOfDigits(v / 256, n - 1);
    }
  }

  lemma {:induction false} ValueOfFittingDigits(v: nat, n: nat)
    requires v < Pow256(n)
    ensures Value(Digits(v, n)) == v
    decreases n
  {
    if n == 0 {
    } else {
      var d := Digits(v, n);
      assert d[..n - 1] == Digits(v / 256, n - 1);
      ValueOfFittingDigits(v / 256, n - 1);
    }
  }

  lemma {:induction false} DigitsOfValue(s: seq<byte>)
    ensures Digits(Value(s), |s|) == s
    decreases |s|
  {
    if s == [] {
    } else {
      var n := |s| - 1;
      DigitsOfValue(s[..n]);
      assert Value(s) / 256 == Value(s[..n]) && Value(s) % 256 == s[n];
    }
  }

  /** Low zero bytes are a factor: putting the digits of k there adds k. */
  lemma DigitsBelow(top: seq<byte>, k: nat, n: nat)
    requires k < Pow256(n)
    ensures Value(top + Digits(k, n)) == Value(top + Digits(0, n)) + k
  {
    ValueConcat(top, Digits(k, n));
    ValueConcat(top, Digits(0, n));
    ValueOfFittingDigits(k, n);
    ValueOfFittingDigits(0, n);
  }
}
