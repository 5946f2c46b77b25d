/** Lexicographic order on strings and the ascending key sequence that a
    `BTreeMap` iterates. */
module Order {
  predicate Leq(a: string, b: string) {
    a == [] || (b != [] && (a[0] < b[0] || (a[0] == b[0] && Leq(a[1..], b[1..]))))
  }

  lemma {:induction false} LeqTotal(a: string, b: string)
    ensures Leq(a, b) || Leq(b, a)
  {
    if a != [] && b != [] && a[0] == b[0] {
      LeqTotal(a[1..], b[1..]);
    }
  }

  lemma {:induction false} LeqAntisymmetric(a: string, b: string)
    requires Leq(a, b) && Leq(b, a)
    ensures a == b
  {
    if a != [] {
      LeqAntisymmetric(a[1..], b[1..]);
      assert a == [a[0]] + a[1..] && b == [b[0]] + b[1..];
    }
  }

  lemma {:induction false} LeqTransitive(a: string, b: string, c: string)
    requires Leq(a, b) && Leq(b, c)
    ensures Leq(a, c)
  {
    if a != [] && a[0] == b[0] && b[0] == c[0] {
      LeqTransitive(a[1..], b[1..], c[1..]);
    }
  }

  predicate IsLeast(k: string, keys: set<string>) {
    k in keys && forall x | x in keys :: Leq(k, x)
  }

  lemma {:induction false} LeastExists(keys: set<string>)
    requires keys != {}
    ensures exists k :: IsLeast(k, keys)
  {
    var k :| k in keys;
    LeqTotal(k, k);
    if keys == {k} {
      assert IsLeast(k, keys);
    } else {
      LeastExists(keys - {k});
      var l :| IsLeast(l, keys - {k});
      LeqTotal(k, l);
      if Leq(l, k) {
        assert IsLeast(l, keys);
      } else {
        forall x | x in keys ensures Leq(k, x) {
          if x != k {
            LeqTransitive(k, l, x);
          }
        }
        assert IsLeast(k, keys);
      }
    }
  }

  lemma LeastUnique(keys: set<string>)
    ensures forall x, y | IsLeast(x, keys) && IsLeast(y, keys) :: x == y
  {
    forall x, y | IsLeast(x, keys) && IsLeast(y, keys) ensures x == y {
      LeqAntisymmetric(x, y);
    }
  }

  /** The first key of a `BTreeMap` with these keys. */
  function Least(keys: set<string>): (k: string)
    requires keys != {}
    ensures IsLeast(k, keys)
  {
    LeastExists(keys);
    LeastUnique(keys);
    var k :| k in keys && IsLeast(k, keys);
    k
  }

  /** All keys in ascending order. */
  function Sorted(keys: set<string>): (ks: seq<string>)
    ensures |ks| == |keys|
    ensures forall k :: k in ks <==> k in keys
    ensures forall i, j | 0 <= i < j < |ks| :: Leq(ks[i], ks[j]) && ks[i] != ks[j]
    decreases keys
  {
    if keys == {} then []
    else
      var k := Least(keys);
      var rest := Sorted(keys - {k});
      ConsSorted(k, rest, keys);
      [k] + rest
  }

  lemma ConsSorted(k: string, rest: seq<string>, keys: set<string>)
    requires IsLeast(k, keys) && |rest| == |keys - {k}| && forall x :: x in rest <==> x in keys - {k}
    requires forall i, j | 0 <= i < j < |rest| :: Leq(rest[i], rest[j]) && rest[i] != rest[j]
    ensures var ks := [k] + rest;
      && |ks| == |keys| && (forall x :: x in ks <==> x in keys)
      && forall i, j | 0 <= i < j < |ks| :: Leq(ks[i], ks[j]) && ks[i] != ks[j]
  {
    hide Leq;
    assert forall i | 0 <= i < |rest| :: rest[i] in rest;
  }

  /** The order is that of a dictionary: a prefix comes before what extends it,
      else the first characters that differ decide. */
  lemma {:induction false} LeqMeans(a: string, b: string)
    ensures Leq(a, b) <==> a <= b || Differ(a, b)
    decreases |a|
  {
    if a != [] && b != [] {
      assert a == [a[0]] + a[1..] && b == [b[0]] + b[1..];
      if a[0] == b[0] {
        LeqMeans(a[1..], b[1..]);
        DifferCons(a, b);
      } else {
        DifferHere(a, b);
      }
    }
  }

  lemma DifferHere(a: string, b: string)
    requires a != [] && b != [] && a[0] != b[0]
    ensures Differ(a, b) <==> a[0] < b[0]
  {
    assert a[..0] == b[..0];
    assert forall i | 0 < i <= |a| && i <= |b| :: a[..i][0] == a[0] && b[..i][0] == b[0];
  }

  lemma DifferCons(a: string, b: string)
    requires a != [] && b != [] && a[0] == b[0]
    ensures Differ(a, b) <==> Differ(a[1..], b[1..])
  {
    if Differ(a[1..], b[1..]) {
      var i :| 0 <= i < |a[1..]| && i < |b[1..]| && a[1..][..i] == b[1..][..i] && a[1..][i] < b[1..][i];
      assert a[..i + 1] == [a[0]] + a[1..][..i] && b[..i + 1] == [b[0]] + b[1..][..i];
      assert a[i + 1] < b[i + 1];
    }
    if Differ(a, b) {
      var i :| 0 <= i < |a| && i < |b| && a[..i] == b[..i] && a[i] < b[i];
      assert a[1..][..i - 1] == a[..i][1..] && b[1..][..i - 1] == b[..i][1..];
      assert a[1..][i - 1] < b[1..][i - 1];
    }
  }

  ghost predicate Differ(a: string, b: string) {
    exists i :: 0 <= i < |a| && i < |b| && a[..i] == b[..i] && a[i] < b[i]
  }
}
